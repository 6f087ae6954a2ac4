/** The JSON reader: tokens, strings, numbers and values
    (src/lib/api/jsonrpc/json/json_reader.cpp:46-103, 121-756). */
module JsonReader {
  import opened JsonValues
  import opened Options
  import Sequences

  datatype Kind =
    | ObjectBegin | ObjectEnd | ArrayBegin | ArrayEnd
    | StringToken | NumberToken | TrueToken | FalseToken | NullToken
    | ArraySeparator | MemberSeparator | CommentToken | EndOfStream | ErrorToken

  /** A token, its text and what follows it. */
  datatype Token = Token(kind: Kind, text: string, rest: string)

  /** Whether scanning succeeded, and what is left to read. */
  datatype Scan = Scan(ok: bool, rest: string)

  const NUL: char := '\0'

  // ---------------------------------------------------------------------- scanning

  predicate IsSpace(c: char) { c == ' ' || c == '\t' || c == '\r' || c == '\n' }

  function SkipSpaces(s: string): (r: string)
    ensures |r| <= |s|
  {
    if s != "" && IsSpace(s[0]) then SkipSpaces(s[1..]) else s
  }

  predicate IsDigit(c: char) { '0' <= c <= '9' }

  predicate IsNumberChar(c: char) {
    IsDigit(c) || c == '.' || c == 'e' || c == 'E' || c == '+' || c == '-'
  }

  function ScanNumber(s: string): (r: string)
    ensures |r| <= |s|
  {
    if s != "" && IsNumberChar(s[0]) then ScanNumber(s[1..]) else s
  }

  /** readString, behind the opening quote. */
  function ScanString(s: string): (r: Scan)
    ensures |r.rest| <= |s|
    decreases |s|
  {
    if s == "" then Scan(false, "")
    else if s[0] == '\\' then if |s| == 1 then Scan(false, "") else ScanString(s[2..])
    else if s[0] == '"' then Scan(true, s[1..])
    else ScanString(s[1..])
  }

  function ScanCStyle(s: string): (r: Scan)
    ensures |r.rest| <= |s|
  {
    if s == "" then Scan(false, "")
    else if s[0] == '*' && |s| > 1 && s[1] == '/' then Scan(true, s[2..])
    else ScanCStyle(s[1..])
  }

  function ScanCppStyle(s: string): (r: string)
    ensures |r| <= |s|
  {
    if s == "" then ""
    else if s[0] == '\r' || s[0] == '\n' then s[1..]
    else ScanCppStyle(s[1..])
  }

  /** readComment, behind the first slash. */
  function ScanComment(s: string): (r: Scan)
    ensures |r.rest| <= |s|
  {
    if s == "" then Scan(false, "")
    else if s[0] == '*' then ScanCStyle(s[1..])
    else if s[0] == '/' then Scan(true, ScanCppStyle(s[1..]))
    else Scan(false, s[1..])
  }

  function Match(s: string, pattern: string): (r: Scan)
    ensures |r.rest| <= |s|
  {
    if |s| >= |pattern| && s[..|pattern|] == pattern then Scan(true, s[|pattern|..]) else Scan(false, s)
  }

  function Simple(c: char): (r: Option<Kind>) {
    if c == '{' then Some(ObjectBegin)
    else if c == '}' then Some(ObjectEnd)
    else if c == '[' then Some(ArrayBegin)
    else if c == ']' then Some(ArrayEnd)
    else if c == ',' then Some(ArraySeparator)
    else if c == ':' then Some(MemberSeparator)
    else if c == NUL then Some(EndOfStream)
    else None
  }

  /** A token whose scanning may fail. */
  function Scanned(kind: Kind, s: string, scan: Scan): (r: Token)
    requires |scan.rest| <= |s|
    ensures r.rest == scan.rest && (r.kind == kind || r.kind == ErrorToken)
  {
    Token(if scan.ok then kind else ErrorToken, s[..|s| - |scan.rest|], scan.rest)
  }

  /** readToken. */
  function ReadToken(from: string): (r: Token)
    ensures |r.rest| <= |from|
    ensures from != "" && r.kind != EndOfStream ==> |r.rest| < |from|
    ensures from == "" ==> r.kind == EndOfStream
  {
    var s := SkipSpaces(from);
    if s == "" then Token(EndOfStream, "", "")
    else
      var c, t := s[0], s[1..];
      if Simple(c).Some? then Token(Simple(c).value, [c], t)
      else if c == '"' then Scanned(StringToken, s, ScanString(t))
      else if c == '/' then Scanned(CommentToken, s, ScanComment(t))
      else if IsDigit(c) || c == '-' then Scanned(NumberToken, s, Scan(true, ScanNumber(t)))
      else if c == 't' then Scanned(TrueToken, s, Match(t, "rue"))
      else if c == 'f' then Scanned(FalseToken, s, Match(t, "alse"))
      else if c == 'n' then Scanned(NullToken, s, Match(t, "ull"))
      else Token(ErrorToken, [c], t)
  }

  /** skipCommentTokens: the next token that is no comment. */
  function NextToken(s: string): (r: Token)
    ensures |r.rest| <= |s|
    ensures s != "" && r.kind != EndOfStream ==> |r.rest| < |s|
    ensures r.kind != CommentToken && (s == "" ==> r.kind == EndOfStream)
    decreases |s|
  {
    var t := ReadToken(s);
    if t.kind == CommentToken then NextToken(t.rest) else t
  }

  // ---------------------------------------------------------------- strings and numbers

  function HexValue(c: char): (r: int)
    ensures -1 <= r <= 15
  {
    if IsDigit(c) then c as int - '0' as int
    else if 'a' <= c <= 'f' then c as int - 'a' as int + 10
    else if 'A' <= c <= 'F' then c as int - 'A' as int + 10
    else -1
  }

  /** decodeUnicodeEscapeSequence. */
  function Hex4(s: string): (r: Option<nat>)
    ensures r.Some? ==> |s| >= 4 && r.value <= 0xffff
  {
    if |s| < 4 || HexValue(s[0]) < 0 || HexValue(s[1]) < 0 || HexValue(s[2]) < 0 || HexValue(s[3]) < 0 then None
    else Some(((HexValue(s[0]) * 16 + HexValue(s[1])) * 16 + HexValue(s[2])) * 16 + HexValue(s[3]))
  }

  datatype CodePoint = CodePoint(unicode: nat, rest: string)

  /** decodeUnicodeCodePoint: a high surrogate needs a second escape behind it. */
  function ReadCodePoint(s: string): (r: Option<CodePoint>)
    ensures r.Some? ==> |r.value.rest| < |s|
  {
    match Hex4(s)
    case None => None
    case Some(u) =>
      var t := s[4..];
      if !(0xd800 <= u <= 0xdbff) then Some(CodePoint(u, t))
      else if |t| < 6 || t[0] != '\\' || t[1] != 'u' then None
      else match Hex4(t[2..])
        case None => None
        case Some(low) => Some(CodePoint(0x1_0000 + u % 0x400 * 0x400 + low % 0x400, t[6..]))
  }

  function CodePointToUTF8(cp: nat): (r: string) {
    if cp <= 0x7f then [cp as char]
    else if cp <= 0x7ff then [(0xc0 + cp / 64 % 32) as char, (0x80 + cp % 64) as char]
    else if cp <= 0xffff then
      [(0xe0 + cp / 0x1000 % 16) as char, (0x80 + cp / 64 % 64) as char, (0x80 + cp % 64) as char]
    else if cp <= 0x10_ffff then
      [(0xf0 + cp / 0x4_0000 % 8) as char, (0x80 + cp / 0x1000 % 64) as char,
       (0x80 + cp / 64 % 64) as char, (0x80 + cp % 64) as char]
    else ""
  }

  function Prepend(x: string, more: Option<string>): (r: Option<string>) {
    if more.Some? then Some(x + more.value) else None
  }

  /** The character that a one-letter escape stands for. */
  function Unescaped(c: char): (r: Option<char>) {
    if c == '"' || c == '/' || c == '\\' then Some(c)
    else if c == 'b' then Some(8 as char)
    else if c == 'f' then Some(12 as char)
    else if c == 'n' then Some('\n')
    else if c == 'r' then Some('\r')
    else if c == 't' then Some('\t')
    else None
  }

  /** decodeString, on what stands between the quotes. */
  function Decode(s: string): (r: Option<string>)
    decreases |s|
  {
    if s == "" || s[0] == '"' then Some("")
    else if s[0] != '\\' then Prepend([s[0]], Decode(s[1..]))
    else if |s| == 1 then None
    else if Unescaped(s[1]).Some? then Prepend([Unescaped(s[1]).value], Decode(s[2..]))
    else if s[1] != 'u' then None
    else match ReadCodePoint(s[2..])
      case None => None
      case Some(cp) => Prepend(CodePointToUTF8(cp.unicode), Decode(cp.rest))
  }

  /** decodeString on a string token. */
  function DecodeToken(text: string): (r: Option<string>) {
    if |text| < 2 then None else Decode(text[1..|text| - 1])
  }

  datatype Digitized = NotANumber | TooLarge | Whole(value: nat)

  /** The loop of decodeNumber: values that reach the threshold are left to the double. */
  function ReadDigits(s: string, value: nat, threshold: nat): (r: Digitized) {
    if s == "" then Whole(value)
    else if !IsDigit(s[0]) then NotANumber
    else if value >= threshold then TooLarge
    else ReadDigits(s[1..], value * 10 + (s[0] as int - '0' as int), threshold)
  }

  /** A character that makes the token a double. */
  predicate IsDoubleChar(c: char, first: bool) {
    c == '.' || c == 'e' || c == 'E' || c == '+' || (c == '-' && !first)
  }

  predicate IsDouble(text: string) {
    exists i :: 0 <= i < |text| && IsDoubleChar(text[i], i == 0)
  }

  /** decodeDouble: `scans` says whether sscanf reads a number. */
  function DecodeDouble(text: string, scans: string -> bool): (r: Option<Value>) {
    if scans(text) then Some(Real(text)) else None
  }

  function DecodeNumber(text: string, scans: string -> bool): (r: Option<Value>) {
    if IsDouble(text) then DecodeDouble(text, scans)
    else
      var negative := text != "" && text[0] == '-';
      var digits := if negative then text[1..] else text;
      match ReadDigits(digits, 0, if negative then 214748364 else 429496729)
      case NotANumber => None
      case TooLarge => DecodeDouble(text, scans)
      case Whole(value) => Some(if negative then Int(-(value as int)) else if value <= MAX_INT then Int(value) else UInt(value))
  }

  // ------------------------------------------------------------------------- values

  /** strcmp on names. */
  predicate NameLess(a: string, b: string) {
    if b == "" then false
    else if a == "" then true
    else if a[0] != b[0] then a[0] < b[0]
    else NameLess(a[1..], b[1..])
  }

  /** What a C string keeps of a text: the characters before the first NUL. */
  function Cut(s: string): (r: string) {
    if s == "" || s[0] == NUL then "" else [s[0]] + Cut(s[1..])
  }

  /** currentValue()[name] = value, for a name without NUL. */
  function Insert(members: seq<Member>, name: string, value: Value): (r: seq<Member>) {
    if members == [] || NameLess(name, members[0].name) then [Member(name, value)] + members
    else if members[0].name == name then [Member(name, value)] + members[1..]
    else [members[0]] + Insert(members[1..], name, value)
  }

  datatype Result = Result(value: Value, rest: string)

  /** readValue; None where it returns false. */
  function ReadValue(s: string, scans: string -> bool): (r: Option<Result>)
    ensures r.Some? ==> |r.value.rest| < |s|
    decreases |s|, 0
  {
    var t := NextToken(s);
    match t.kind
    case ObjectBegin => ReadObject(t.rest, [], "", scans)
    case ArrayBegin => ReadArray(t.rest, scans)
    case NumberToken =>
      (match DecodeNumber(t.text, scans) case None => None case Some(v) => Some(Result(v, t.rest)))
    case StringToken =>
      (match DecodeToken(t.text) case None => None case Some(v) => Some(Result(Str(Cut(v)), t.rest)))
    case TrueToken => Some(Result(Bool(true), t.rest))
    case FalseToken => Some(Result(Bool(false), t.rest))
    case NullToken => Some(Result(Null, t.rest))
    case _ => None
  }

  /** readArray, behind the opening bracket. */
  function ReadArray(s: string, scans: string -> bool): (r: Option<Result>)
    ensures r.Some? ==> |r.value.rest| < |s|
    decreases |s|, 2
  {
    var u := SkipSpaces(s);
    if u != "" && u[0] == ']' then Some(Result(Arr([]), u[1..])) else ReadItems(s, [], scans)
  }

  /** The loop of readArray: any token but the closing bracket is taken for a separator. */
  function ReadItems(s: string, items: seq<Value>, scans: string -> bool): (r: Option<Result>)
    ensures r.Some? ==> |r.value.rest| < |s|
    decreases |s|, 1
  {
    match ReadValue(s, scans)
    case None => None
    case Some(item) =>
      var t := NextToken(item.rest);
      if t.kind == ArrayEnd then Some(Result(Arr(items + [item.value]), t.rest))
      else ReadItems(t.rest, items + [item.value], scans)
  }

  /** The end of a member: nothing, a comma, or comments and whatever stands behind them. */
  function AfterMember(s: string): (r: Option<Token>)
    ensures r.Some? ==> |r.value.rest| <= |s|
  {
    var t := ReadToken(s);
    if t.kind == CommentToken then Some(NextToken(t.rest))
    else if t.kind == ObjectEnd || t.kind == ArraySeparator then Some(t)
    else None
  }

  /** The loop of readObject; `name` is the last member name read. */
  function ReadObject(s: string, members: seq<Member>, name: string, scans: string -> bool): (r: Option<Result>)
    ensures r.Some? ==> |r.value.rest| < |s|
    decreases |s|, 0
  {
    var t := NextToken(s);
    if t.kind == ObjectEnd && name == "" then Some(Result(Obj(members), t.rest))
    else if t.kind != StringToken then None
    else match DecodeToken(t.text)
      case None => None
      case Some(newName) =>
        var colon := ReadToken(t.rest);
        if colon.kind != MemberSeparator then None
        else match ReadValue(colon.rest, scans)
          case None => None
          case Some(item) =>
            var more := Insert(members, Cut(newName), item.value);
            match AfterMember(item.rest)
            case None => None
            case Some(end) =>
              if end.kind == ObjectEnd then Some(Result(Obj(more), end.rest))
              else ReadObject(end.rest, more, newName, scans)
  }

  /** parse: what follows the value is not looked at. */
  function Parse(document: string, scans: string -> bool): (r: Option<Value>) {
    match ReadValue(document, scans) case None => None case Some(v) => Some(v.value)
  }

  // -------------------------------------------------------------- decoding with loops

  lemma PrependTwice(a: string, b: string, o: Option<string>)
    ensures Prepend(a, Prepend(b, o)) == Prepend(a + b, o) && Prepend("", o) == o
  {
    if o.Some? {
      Sequences.Assoc(a, b, o.value);
      Sequences.NothingAround(o.value);
    }
  }

  /** decodeString with its cursor. */
  method DecodeString(s: string) returns (r: Option<string>)
    ensures r == Decode(s)
  {
    hide ReadCodePoint, CodePointToUTF8, Unescaped;
    var decoded := "";
    var rest := s;
    PrependTwice("", "", Decode(s));
    while rest != ""
      invariant Prepend(decoded, Decode(rest)) == Decode(s)
      decreases |rest|
    {
      var c := rest[0];
      if c == '"' {
        break;
      } else if c == '\\' {
        if |rest| == 1 {
          return None;
        }
        var escape := rest[1];
        if Unescaped(escape).Some? {
          PrependTwice(decoded, [Unescaped(escape).value], Decode(rest[2..]));
          decoded := decoded + [Unescaped(escape).value];
          rest := rest[2..];
        } else if escape == 'u' {
          var cp := ReadCodePoint(rest[2..]);
          if cp.None? {
            return None;
          }
          PrependTwice(decoded, CodePointToUTF8(cp.value.unicode), Decode(cp.value.rest));
          decoded := decoded + CodePointToUTF8(cp.value.unicode);
          rest := cp.value.rest;
        } else {
          return None;
        }
      } else {
        PrependTwice(decoded, [c], Decode(rest[1..]));
        decoded := decoded + [c];
        rest := rest[1..];
      }
    }
    Sequences.NothingAround(decoded);
    return Some(decoded);
  }

  /** decodeNumber with its two loops. */
  method DecodeNumberToken(text: string, scans: string -> bool) returns (r: Option<Value>)
    ensures r == DecodeNumber(text, scans)
  {
    var isDouble := false;
    for i := 0 to |text|
      invariant isDouble <==> exists k :: 0 <= k < i && IsDoubleChar(text[k], k == 0)
    {
      isDouble := isDouble || IsDoubleChar(text[i], i == 0);
    }
    if isDouble {
      return DecodeDouble(text, scans);
    }
    var current := text;
    var isNegative := text != "" && text[0] == '-';
    if isNegative {
      current := text[1..];
    }
    var threshold := if isNegative then 214748364 else 429496729;
    var value: nat := 0;
    ghost var digits := current;
    while current != ""
      invariant ReadDigits(current, value, threshold) == ReadDigits(digits, 0, threshold)
      decreases |current|
    {
      var c := current[0];
      current := current[1..];
      if !IsDigit(c) {
        return None;
      }
      if value >= threshold {
        return DecodeDouble(text, scans);
      }
      value := value * 10 + (c as int - '0' as int);
    }
    if isNegative {
      return Some(Int(-(value as int)));
    } else if value <= MAX_INT {
      return Some(Int(value));
    } else {
      return Some(UInt(value));
    }
  }

  // ---------------------------------------------------------------------- the reader

  class Reader {
    const document: string
    const scans: string -> bool
    var current: nat

    constructor (document: string, scans: string -> bool)
      ensures this.document == document && this.scans == scans && current == 0
    {
      this.document, this.scans := document, scans;
      current := 0;
    }

    predicate Valid()
      reads this
    {
      current <= |document|
    }

    function Left(): (r: string)
      reads this
      requires Valid()
    {
      document[current..]
    }

    method GetNextChar() returns (c: char)
      requires Valid()
      modifies this
      ensures Valid()
      ensures if old(Left()) == "" then c == NUL && Left() == "" else c == old(Left())[0] && Left() == old(Left())[1..]
    {
      if current == |document| {
        return NUL;
      }
      c := document[current];
      assert document[current..][1..] == document[current + 1..];
      current := current + 1;
    }

    method SkipBlanks()
      requires Valid()
      modifies this
      ensures Valid() && current >= old(current) && Left() == SkipSpaces(old(Left()))
    {
      while current != |document|
        invariant Valid() && current >= old(current) && SkipSpaces(Left()) == SkipSpaces(old(Left()))
        decreases |document| - current
      {
        var c := document[current];
        assert document[current..][1..] == document[current + 1..];
        if IsSpace(c) {
          current := current + 1;
        } else {
          break;
        }
      }
    }

    method MatchPattern(pattern: string) returns (ok: bool)
      requires Valid()
      modifies this
      ensures Valid() && Scan(ok, Left()) == Match(old(Left()), pattern)
    {
      if |document| - current < |pattern| {
        return false;
      }
      var index := |pattern|;
      while index > 0
        invariant 0 <= index <= |pattern|
        invariant forall k :: index <= k < |pattern| ==> document[current + k] == pattern[k]
      {
        index := index - 1;
        if document[current + index] != pattern[index] {
          assert Left()[..|pattern|][index] != pattern[index];
          return false;
        }
      }
      assert Left()[..|pattern|] == pattern;
      assert document[current..][|pattern|..] == document[current + |pattern|..];
      current := current + |pattern|;
      return true;
    }

    method ReadNumber()
      requires Valid()
      modifies this
      ensures Valid() && Left() == ScanNumber(old(Left()))
    {
      while current != |document|
        invariant Valid() && ScanNumber(Left()) == ScanNumber(old(Left()))
        decreases |document| - current
      {
        assert document[current..][1..] == document[current + 1..];
        if !IsNumberChar(document[current]) {
          break;
        }
        current := current + 1;
      }
    }

    method ReadString() returns (ok: bool)
      requires Valid()
      modifies this
      ensures Valid() && Scan(ok, Left()) == ScanString(old(Left()))
    {
      var c := NUL;
      while current != |document|
        invariant Valid() && ScanString(Left()) == ScanString(old(Left())) && c != '"'
        decreases |document| - current
      {
        c := GetNextChar();
        if c == '\\' {
          var escaped := GetNextChar();
        } else if c == '"' {
          return true;
        }
      }
      return false;
    }

    method ReadComment() returns (ok: bool)
      requires Valid()
      modifies this
      ensures Valid() && Scan(ok, Left()) == ScanComment(old(Left()))
    {
      var c := GetNextChar();
      if c == '*' {
        ok := ReadCStyleComment();
      } else if c == '/' {
        ReadCppStyleComment();
        ok := true;
      } else {
        ok := false;
      }
    }

    method ReadCStyleComment() returns (ok: bool)
      requires Valid()
      modifies this
      ensures Valid() && Scan(ok, Left()) == ScanCStyle(old(Left()))
    {
      while current != |document|
        invariant Valid() && ScanCStyle(Left()) == ScanCStyle(old(Left()))
        decreases |document| - current
      {
        ghost var before := Left();
        var c := GetNextChar();
        if c == '*' && current < |document| && document[current] == '/' {
          assert Left() == before[1..] && before[1] == '/';
          assert before[1..][1..] == before[2..];
          break;
        }
      }
      var last := GetNextChar();
      ok := last == '/';
    }

    method ReadCppStyleComment()
      requires Valid()
      modifies this
      ensures Valid() && Left() == ScanCppStyle(old(Left()))
    {
      while current != |document|
        invariant Valid() && ScanCppStyle(Left()) == ScanCppStyle(old(Left()))
        decreases |document| - current
      {
        var c := GetNextChar();
        if c == '\r' || c == '\n' {
          return;
        }
      }
    }

    /** readToken. */
    method NextRawToken() returns (token: Token)
      requires Valid()
      modifies this
      ensures Valid() && token == ReadToken(old(Left())) && Left() == token.rest
    {
      hide ScanNumber, ScanString, ScanComment, Match;
      SkipBlanks();
      var start := current;
      ghost var s := Left();
      var c := GetNextChar();
      var ok, kind := true, ErrorToken;
      if start == |document| {
        return Token(EndOfStream, "", "");
      }
      if Simple(c).Some? {
        kind := Simple(c).value;
      } else if c == '"' {
        kind := StringToken;
        ok := ReadString();
      } else if c == '/' {
        kind := CommentToken;
        ok := ReadComment();
      } else if IsDigit(c) || c == '-' {
        kind := NumberToken;
        ReadNumber();
      } else if c == 't' {
        kind := TrueToken;
        ok := MatchPattern("rue");
      } else if c == 'f' {
        kind := FalseToken;
        ok := MatchPattern("alse");
      } else if c == 'n' {
        kind := NullToken;
        ok := MatchPattern("ull");
      } else {
        ok := false;
      }
      TokenText(s, Left(), start);
      token := Token(if ok then kind else ErrorToken, document[start..current], Left());
    }

    lemma TokenText(s: string, rest: string, start: nat)
      requires Valid() && start <= |document| && s == document[start..] && rest == Left() && |rest| <= |s|
      ensures start <= current && document[start..current] == s[..|s| - |rest|]
    {
    }

    /** skipCommentTokens. */
    method SkipCommentTokens() returns (token: Token)
      requires Valid()
      modifies this
      ensures Valid() && token == NextToken(old(Left())) && Left() == token.rest
    {
      hide ReadToken;
      var more := true;
      token := Token(CommentToken, "", "");
      while more
        invariant Valid() && if more then NextToken(Left()) == NextToken(old(Left()))
                             else token == NextToken(old(Left())) && Left() == token.rest
        decreases more, |document| - current
      {
        ghost var before := Left();
        token := NextRawToken();
        ReadTokenAdvances(before);
        more := token.kind == CommentToken;
      }
    }

    /** readValue; the value that the source leaves on top of its node stack is returned. */
    method ReadOneValue() returns (r: Option<Value>)
      requires Valid()
      modifies this
      ensures Valid() && Agrees(ReadValue(old(Left()), scans), r, Left())
      decreases |Left()|, 0
    {
      hide NextToken, ReadToken, ReadItems, ReadObject, DecodeNumber, DecodeToken, SkipSpaces;
      ghost var s := Left();
      var token := SkipCommentTokens();
      NextTokenAdvances(s);
      match token.kind
      case ObjectBegin =>
        r := ReadMembers();
      case ArrayBegin =>
        r := ReadElements();
      case NumberToken =>
        r := DecodeNumberToken(token.text, scans);
      case StringToken =>
        var decoded := DecodeStringToken(token.text);
        r := if decoded.None? then None else Some(Str(Cut(decoded.value)));
      case TrueToken =>
        r := Some(Bool(true));
      case FalseToken =>
        r := Some(Bool(false));
      case NullToken =>
        r := Some(Null);
      case _ =>
        r := None;
    }

    method DecodeStringToken(text: string) returns (r: Option<string>)
      ensures r == DecodeToken(text)
    {
      if |text| < 2 {
        return None;
      }
      r := DecodeString(text[1..|text| - 1]);
    }

    /** readArray, behind the opening bracket. */
    method ReadElements() returns (r: Option<Value>)
      requires Valid()
      modifies this
      ensures Valid() && Agrees(ReadArray(old(Left()), scans), r, Left())
      decreases |Left()|, 2
    {
      hide ReadToken, NextToken, ReadItems, SkipSpaces;
      ghost var start := Left();
      SkipBlanks();
      if current < |document| && document[current] == ']' {
        BracketToken(start);
        var endArray := NextRawToken();
        return Some(Arr([]));
      }
      SpacesFirst(start, scans);
      var items: seq<Value> := [];
      while true
        invariant Valid() && current >= old(current) && ReadItems(Left(), items, scans) == ReadItems(start, [], scans)
        decreases |Left()|
      {
        ghost var before := Left();
        var item := ReadOneValue();
        ReadItemsStep(before, items, scans);
        if item.None? {
          return None;
        }
        ghost var rest := Left();
        var token := SkipCommentTokens();
        items := items + [item.value];
        if token.kind == ArrayEnd {
          return Some(Arr(items));
        }
      }
    }

    /** readObject, behind the opening brace. */
    method ReadMembers() returns (r: Option<Value>)
      requires Valid()
      modifies this
      ensures Valid() && Agrees(ReadObject(old(Left()), [], "", scans), r, Left())
      decreases |Left()|, 1
    {
      hide ReadToken, NextToken, ReadValue, ReadObject, DecodeToken, Insert;
      ghost var start := Left();
      var members: seq<Member>, name := [], "";
      while true
        invariant Valid() && |Left()| <= |start|
        invariant ReadObject(Left(), members, name, scans) == ReadObject(start, [], "", scans)
        decreases |Left()|
      {
        ghost var before := Left();
        ReadObjectStep(before, members, name, scans);
        NextTokenAdvances(before);
        var tokenName := SkipCommentTokens();
        if tokenName.kind == ObjectEnd && name == "" {
          return Some(Obj(members));
        }
        if tokenName.kind != StringToken {
          return None;
        }
        var decoded := DecodeStringToken(tokenName.text);
        if decoded.None? {
          return None;
        }
        name := decoded.value;
        ReadTokenAdvances(Left());
        var colon := NextRawToken();
        if colon.kind != MemberSeparator {
          return None;
        }
        var value := ReadOneValue();
        if value.None? {
          return None;
        }
        members := Insert(members, Cut(name), value.value);
        var comma := MemberEnd();
        if comma.None? {
          return None;
        }
        if comma.value.kind == ObjectEnd {
          return Some(Obj(members));
        }
      }
    }

    /** The token behind a member; None where the source reports a missing separator. */
    method MemberEnd() returns (r: Option<Token>)
      requires Valid()
      modifies this
      ensures Valid() && r == AfterMember(old(Left())) && (r.Some? ==> Left() == r.value.rest)
    {
      hide ReadToken, NextToken;
      var comma := NextRawToken();
      if comma.kind != ObjectEnd && comma.kind != ArraySeparator && comma.kind != CommentToken {
        return None;
      }
      if comma.kind == CommentToken {
        comma := SkipCommentTokens();
      }
      return Some(comma);
    }
  }

  lemma ReadObjectStep(s: string, members: seq<Member>, name: string, scans: string -> bool)
    ensures var t := NextToken(s);
            ReadObject(s, members, name, scans) ==
              if t.kind == ObjectEnd && name == "" then Some(Result(Obj(members), t.rest))
              else if t.kind != StringToken then None
              else match DecodeToken(t.text)
                case None => None
                case Some(newName) => MemberAt(t.rest, members, newName, scans)
  {
    hide NextToken, DecodeToken, ReadValue, ReadToken, AfterMember;
  }

  /** A member behind its name, and the rest of the object. */
  function MemberAt(s: string, members: seq<Member>, name: string, scans: string -> bool): (r: Option<Result>) {
    var colon := ReadToken(s);
    if colon.kind != MemberSeparator then None
    else match ReadValue(colon.rest, scans)
      case None => None
      case Some(item) =>
        var more := Insert(members, Cut(name), item.value);
        match AfterMember(item.rest)
        case None => None
        case Some(end) =>
          if end.kind == ObjectEnd then Some(Result(Obj(more), end.rest)) else ReadObject(end.rest, more, name, scans)
  }

  /** parse: what follows the value is not looked at. */
  method ParseDocument(document: string, scans: string -> bool) returns (r: Option<Value>)
    ensures r == Parse(document, scans)
  {
    hide ReadValue;
    var reader := new Reader(document, scans);
    assert document[0..] == document;
    r := reader.ReadOneValue();
  }

  /** A parse and its imperative counterpart; where the parse fails nothing is said about the position. */
  ghost predicate Agrees(parsed: Option<Result>, r: Option<Value>, left: string) {
    match parsed
    case None => r == None
    case Some(v) => r == Some(v.value) && left == v.rest
  }

  lemma ReadTokenAdvances(s: string)
    ensures var t := ReadToken(s); |t.rest| <= |s| && (t.kind == CommentToken ==> |t.rest| < |s|)
    ensures NextToken(s) == if ReadToken(s).kind == CommentToken then NextToken(ReadToken(s).rest) else ReadToken(s)
  {
  }

  lemma NextTokenAdvances(s: string)
    ensures var t := NextToken(s); |t.rest| <= |s| && (t.kind != EndOfStream ==> |t.rest| < |s|)
  {
    if s == "" { assert NextToken(s).kind == EndOfStream; }
  }

  lemma BracketToken(s: string)
    requires SkipSpaces(s) != "" && SkipSpaces(s)[0] == ']'
    ensures ReadToken(SkipSpaces(s)).rest == SkipSpaces(s)[1..]
  {
    SkippedTwice(s);
  }

  lemma {:induction false} SkippedTwice(s: string)
    ensures SkipSpaces(SkipSpaces(s)) == SkipSpaces(s)
  {
    if s != "" && IsSpace(s[0]) { SkippedTwice(s[1..]); }
  }

  lemma {:induction false} TokensAfterSpaces(s: string)
    ensures NextToken(SkipSpaces(s)) == NextToken(s)
  {
    hide Scanned, Simple, ScanNumber, ScanString, ScanComment, Match;
    SkippedTwice(s);
    assert ReadToken(SkipSpaces(s)) == ReadToken(s);
  }

  lemma {:induction false} ValueAfterSpaces(s: string, scans: string -> bool)
    ensures ReadValue(SkipSpaces(s), scans) == ReadValue(s, scans)
  {
    hide NextToken, SkipSpaces, ReadObject, ReadArray, DecodeNumber, DecodeToken;
    TokensAfterSpaces(s);
  }

  lemma {:induction false} SpacesFirst(s: string, scans: string -> bool)
    ensures ReadItems(SkipSpaces(s), [], scans) == ReadItems(s, [], scans)
  {
    hide ReadItems, ReadValue, SkipSpaces, NextToken;
    ValueAfterSpaces(s, scans);
    ReadItemsStep(s, [], scans);
    ReadItemsStep(SkipSpaces(s), [], scans);
  }

  lemma ReadItemsStep(s: string, items: seq<Value>, scans: string -> bool)
    ensures match ReadValue(s, scans)
            case None => ReadItems(s, items, scans) == None
            case Some(item) =>
              var t, more := NextToken(item.rest), items + [item.value];
              |t.rest| <= |item.rest| < |s| &&
              ReadItems(s, items, scans) ==
                if t.kind == ArrayEnd then Some(Result(Arr(more), t.rest)) else ReadItems(t.rest, more, scans)
  {
    hide ReadValue, NextToken;
  }
}
