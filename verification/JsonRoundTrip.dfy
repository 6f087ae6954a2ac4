/** Reading what the compact writer has written. */
module JsonRoundTrip {
  import opened JsonValues
  import opened JsonReader
  import opened Options
  import Sequences

  // ---------------------------------------------------------------- what is read back

  /** A C string. */
  predicate CString(s: string) {
    forall i :: 0 <= i < |s| ==> IsByte(s[i])
  }

  ghost predicate SortedNames(members: seq<Member>) {
    forall i, j :: 0 <= i < j < |members| ==> NameLess(members[i].name, members[j].name)
  }

  /** Values as C++ integers, C strings and std::map hold them. */
  ghost predicate Storable(v: Value)
    decreases v, 0
  {
    match v
    case Int(n) => MIN_INT <= n <= MAX_INT
    case UInt(u) => 0 <= u <= MAX_UINT
    case Real(_) => false
    case Str(s) => CString(s)
    case Arr(items) => StorableItems(items)
    case Obj(members) => SortedNames(members) && StorableMembers(members)
    case _ => true
  }

  ghost predicate StorableItems(items: seq<Value>)
    decreases items
  {
    forall i :: 0 <= i < |items| ==> Storable(items[i])
  }

  ghost predicate StorableMembers(members: seq<Member>)
    decreases members
  {
    forall i :: 0 <= i < |members| ==> CString(members[i].name) && Storable(members[i].value)
  }

  /** The number that a written number is read as. */
  function NumberImage(n: int): (r: Value) {
    if n < -2147483639 || n > 4294967289 then Real(IntText(n)) else if n <= MAX_INT then Int(n) else UInt(n)
  }

  /** The value that a written value is read as. */
  function Image(v: Value): (r: Value)
    decreases v, 0
  {
    match v
    case Int(n) => NumberImage(n)
    case UInt(u) => NumberImage(u)
    case Arr(items) => Arr(ImageItems(items))
    case Obj(members) => Obj(ImageMembers(members))
    case _ => v
  }

  function ImageItems(items: seq<Value>): (r: seq<Value>)
    ensures |r| == |items|
    decreases items
  {
    if items == [] then [] else [Image(items[0])] + ImageItems(items[1..])
  }

  function ImageMembers(members: seq<Member>): (r: seq<Member>)
    ensures |r| == |members| && forall i :: 0 <= i < |members| ==> r[i].name == members[i].name
    decreases members
  {
    if members == [] then [] else [Member(members[0].name, Image(members[0].value))] + ImageMembers(members[1..])
  }

  lemma {:induction false} ImageOfItem(items: seq<Value>, k: nat)
    requires k < |items|
    ensures ImageItems(items)[k] == Image(items[k])
  {
    hide Image;
    if k > 0 {
      ImageOfItem(items[1..], k - 1);
    }
  }

  lemma {:induction false} ImageOfMember(members: seq<Member>, k: nat)
    requires k < |members|
    ensures ImageMembers(members)[k] == Member(members[k].name, Image(members[k].value))
  {
    hide Image;
    if k > 0 {
      ImageOfMember(members[1..], k - 1);
    }
  }

  /** All numbers in the value come back with their value and type. */
  ghost predicate NumbersSurvive(v: Value)
    decreases v, 0
  {
    match v
    case Int(n) => n >= -2147483639
    case UInt(u) => MAX_INT < u <= 4294967289
    case Arr(items) => ItemsSurvive(items)
    case Obj(members) => MembersSurvive(members)
    case _ => true
  }

  ghost predicate ItemsSurvive(items: seq<Value>)
    decreases items
  {
    forall i :: 0 <= i < |items| ==> NumbersSurvive(items[i])
  }

  ghost predicate MembersSurvive(members: seq<Member>)
    decreases members
  {
    forall i :: 0 <= i < |members| ==> NumbersSurvive(members[i].value)
  }

  lemma {:induction false} SameImage(v: Value)
    requires Storable(v)
    ensures Image(v) == v <==> NumbersSurvive(v)
    decreases v, 0
  {
    match v
    case Arr(items) => SameItems(items);
    case Obj(members) => SameMembers(members);
    case _ =>
  }

  lemma {:induction false} SameItems(items: seq<Value>)
    requires StorableItems(items)
    ensures ImageItems(items) == items <==> ItemsSurvive(items)
    decreases items
  {
    hide Image, ImageItems, NumbersSurvive, Storable;
    forall i | 0 <= i < |items|
      ensures ImageItems(items)[i] == items[i] <==> NumbersSurvive(items[i])
    {
      ImageOfItem(items, i);
      SameImage(items[i]);
    }
    ItemsLength(items);
  }

  lemma ItemsLength(items: seq<Value>)
    ensures |ImageItems(items)| == |items|
  {
  }

  lemma MembersLength(members: seq<Member>)
    ensures |ImageMembers(members)| == |members|
  {
  }

  lemma {:induction false} SameMembers(members: seq<Member>)
    requires StorableMembers(members)
    ensures ImageMembers(members) == members <==> MembersSurvive(members)
    decreases members
  {
    hide Image, ImageMembers, NumbersSurvive, Storable;
    MembersLength(members);
    forall i | 0 <= i < |members|
      ensures ImageMembers(members)[i] == members[i] <==> NumbersSurvive(members[i].value)
    {
      ImageOfMember(members, i);
      SameImage(members[i].value);
    }
  }

  /** sscanf reads integers. */
  ghost predicate ScansIntegers(scans: string -> bool) {
    forall n: int :: scans(IntText(n))
  }

  // --------------------------------------------------------------------- numbers

  /** A number ends where the text does or at a character that no number contains. */
  predicate Terminated(tail: string) {
    tail == "" || !IsNumberChar(tail[0])
  }

  lemma {:induction false} ScanAll(s: string, tail: string)
    requires (forall i :: 0 <= i < |s| ==> IsNumberChar(s[i])) && Terminated(tail)
    ensures ScanNumber(s + tail) == tail
  {
    if s == "" {
      Sequences.NothingAround(tail);
    } else {
      ScanAll(s[1..], tail);
      assert (s + tail)[1..] == s[1..] + tail;
    }
  }

  /** Digits are read until the value before the last one would reach the threshold. */
  lemma {:induction false} DigitsRead(n: nat, tail: string, threshold: nat)
    requires threshold > 0
    ensures ReadDigits(Digits(n) + tail, 0, threshold) ==
            if n / 10 < threshold then ReadDigits(tail, n, threshold) else TooLarge
  {
    if n < 10 {
      Sequences.ConsTail(DigitChar(n), tail);
    } else {
      var last := [DigitChar(n % 10)];
      Sequences.Assoc(Digits(n / 10), last, tail);
      DigitsRead(n / 10, last + tail, threshold);
      Sequences.ConsTail(last[0], tail);
    }
  }

  lemma NoDouble(n: int)
    ensures !IsDouble(IntText(n))
  {
  }

  /** A number is read back as the same number of the same type, or left to the double. */
  lemma {:induction false} NumberDecoded(n: int, scans: string -> bool)
    ensures DecodeNumber(IntText(n), scans) ==
      if NumberImage(n).Real? then DecodeDouble(IntText(n), scans) else Some(NumberImage(n))
  {
    hide Digits, ReadDigits, IsDouble;
    NoDouble(n);
    if n < 0 {
      Sequences.ConsTail('-', Digits(-n));
      WholeNumber(-n, 214748364);
    } else {
      WholeNumber(n, 429496729);
    }
  }

  lemma {:induction false} WholeNumber(n: nat, threshold: nat)
    requires threshold > 0
    ensures ReadDigits(Digits(n), 0, threshold) == if n / 10 < threshold then Whole(n) else TooLarge
    ensures Digits(n)[0] != '-'
  {
    DigitsRead(n, "", threshold);
    hide Digits;
    Sequences.NothingAround(Digits(n));
  }

  lemma {:induction false} NumberIsToken(n: int, tail: string)
    requires Terminated(tail)
    ensures ReadToken(IntText(n) + tail) == Token(NumberToken, IntText(n), tail)
  {
    NumberChars(n);
    hide IntText, IsSpace;
    var t := IntText(n);
    var s := t + tail;
    assert s[0] == t[0] && s[1..] == t[1..] + tail;
    ScanAll(t[1..], tail);
    Sequences.TakeDrop(t, tail);
  }

  lemma {:induction false} NumberChars(n: int)
    ensures var t := IntText(n);
            t != "" && (IsDigit(t[0]) || t[0] == '-') && !IsSpace(t[0]) && forall i :: 0 <= i < |t| ==> IsNumberChar(t[i])
  {
  }

  // --------------------------------------------------------------------- strings

  /** A character of the escaped text that neither ends the string nor escapes. */
  predicate Plain(c: char) {
    c != '\\' && c != '"'
  }

  lemma {:induction false} ScanPlain(s: string, tail: string)
    requires forall i :: 0 <= i < |s| ==> Plain(s[i])
    ensures ScanString(s + tail) == ScanString(tail)
  {
    if s == "" {
      Sequences.NothingAround(tail);
    } else {
      ScanPlain(s[1..], tail);
      assert (s + tail)[1..] == s[1..] + tail;
    }
  }

  lemma ScanEscaped(c: char, tail: string)
    ensures ScanString(Escaped(c) + tail) == ScanString(tail)
  {
    var e := Escaped(c);
    if Plain(c) && !IsControl(c) {
      ScanPlain(e, tail);
    } else {
      assert e[0] == '\\';
      assert (e + tail)[2..] == e[2..] + tail;
      ScanPlain(e[2..], tail);
    }
  }

  lemma {:induction false} ScanEscapedText(s: string, tail: string)
    ensures ScanString(EscapedText(s) + tail) == ScanString(tail)
  {
    hide Escaped;
    if s == "" {
      Sequences.NothingAround(tail);
    } else {
      Sequences.Assoc(Escaped(s[0]), EscapedText(s[1..]), tail);
      ScanEscaped(s[0], EscapedText(s[1..]) + tail);
      ScanEscapedText(s[1..], tail);
    }
  }

  lemma HexDigits(c: char)
    requires IsControl(c)
    ensures Hex4("00" + [UpperHex(c as int / 16), UpperHex(c as int % 16)]) == Some(c as int)
  {
  }

  lemma DecodeControl(c: char, tail: string)
    requires IsControl(c)
    ensures ReadCodePoint("00" + [UpperHex(c as int / 16), UpperHex(c as int % 16)] + tail) == Some(CodePoint(c as int, tail))
  {
    var h := "00" + [UpperHex(c as int / 16), UpperHex(c as int % 16)];
    HexDigits(c);
    assert (h + tail)[4..] == tail;
    assert Hex4(h + tail) == Hex4(h);
  }

  lemma DecodeLetter(x: char, tail: string)
    requires Unescaped(x).Some?
    ensures Decode(['\\', x] + tail) == Prepend([Unescaped(x).value], Decode(tail))
  {
    assert (['\\', x] + tail)[2..] == tail;
  }

  lemma DecodeHex(h: string, c: char, tail: string)
    requires ReadCodePoint(h + tail) == Some(CodePoint(c as int, tail)) && c as int <= 0x7f
    ensures Decode("\\u" + h + tail) == Prepend([c], Decode(tail))
  {
    hide ReadCodePoint;
    assert ("\\u" + h + tail)[2..] == h + tail;
  }

  lemma DecodeEscaped(c: char, tail: string)
    ensures Decode(Escaped(c) + tail) == Prepend([c], Decode(tail))
  {
    hide ReadCodePoint, Decode;
    if Plain(c) && !IsControl(c) {
      DecodePlain(c, tail);
    } else if Escaped(c)[1] == 'u' {
      var h := "00" + [UpperHex(c as int / 16), UpperHex(c as int % 16)];
      DecodeControl(c, tail);
      DecodeHex(h, c, tail);
      assert Escaped(c) == "\\u" + h;
    } else {
      var x := Escaped(c)[1];
      assert Escaped(c) == ['\\', x];
      DecodeLetter(x, tail);
    }
  }

  lemma DecodePlain(c: char, tail: string)
    requires Plain(c)
    ensures Decode([c] + tail) == Prepend([c], Decode(tail))
  {
    Sequences.ConsTail(c, tail);
  }

  lemma {:induction false} DecodeEscapedText(s: string)
    ensures Decode(EscapedText(s)) == Some(s)
  {
    hide Escaped;
    if s != "" {
      DecodeEscaped(s[0], EscapedText(s[1..]));
      DecodeEscapedText(s[1..]);
      assert s == [s[0]] + s[1..];
    }
  }

  /** A quoted string is one token, and it decodes to the string. */
  lemma StringRoundTrip(s: string, tail: string)
    ensures ReadToken(Quoted(s) + tail) == Token(StringToken, Quoted(s), tail)
    ensures DecodeToken(Quoted(s)) == Some(s)
  {
    hide EscapedText, ScanString;
    var e, q := EscapedText(s), Quoted(s);
    assert q + tail == ['"'] + (e + (['"'] + tail));
    Sequences.ConsTail('"', e + (['"'] + tail));
    ScanEscapedText(s, ['"'] + tail);
    ScanQuote(tail);
    assert (q + tail)[..|q|] == q;
    DecodeEscapedText(s);
    assert q[1..|q| - 1] == e;
  }

  lemma ScanQuote(tail: string)
    ensures ScanString(['"'] + tail) == Scan(true, tail)
  {
    Sequences.ConsTail('"', tail);
  }

  // ---------------------------------------------------------------------- tokens

  lemma SimpleToken(c: char, tail: string)
    requires Simple(c).Some?
    ensures ReadToken([c] + tail) == Token(Simple(c).value, [c], tail)
    ensures NextToken([c] + tail) == Token(Simple(c).value, [c], tail)
  {
    Sequences.ConsTail(c, tail);
  }

  lemma {:induction false} Word(word: string, kind: Kind, tail: string)
    requires (word == "null" && kind == NullToken) || (word == "true" && kind == TrueToken) ||
             (word == "false" && kind == FalseToken)
    ensures ReadToken(word + tail) == Token(kind, word, tail)
  {
    var s := word + tail;
    assert s[0] == word[0] && s[1..] == word[1..] + tail;
    Sequences.TakeDrop(word[1..], tail);
    Sequences.TakeDrop(word, tail);
  }

  /** The first character of a value is no space and closes nothing. */
  lemma FirstChar(v: Value, yaml: bool)
    requires !v.Real?
    ensures var s := Text(v, yaml); s != "" && !IsSpace(s[0]) && s[0] != ']' && s[0] != '}'
  {
    match v
    case Int(n) => if n >= 0 { assert IsDigit(Digits(n)[0]); }
    case UInt(n) => if n >= 0 { assert IsDigit(Digits(n)[0]); }
    case _ =>
  }

  // --------------------------------------------------------------------- members

  lemma {:induction false} LessNotGreater(a: string, b: string)
    ensures !(NameLess(a, b) && NameLess(b, a)) && !NameLess(a, a)
  {
    if a != "" {
      if b != "" && a[0] == b[0] {
        LessNotGreater(a[1..], b[1..]);
      }
      LessNotGreater(a[1..], a[1..]);
    }
  }

  /** A name larger than all others is inserted at the end. */
  lemma {:induction false} InsertLast(members: seq<Member>, name: string, value: Value)
    requires forall i :: 0 <= i < |members| ==> NameLess(members[i].name, name)
    ensures Insert(members, name, value) == members + [Member(name, value)]
  {
    if members == [] {
    } else {
      LessNotGreater(members[0].name, name);
      InsertLast(members[1..], name, value);
      assert members == [members[0]] + members[1..];
    }
  }

  // ---------------------------------------------------------------------- values

  lemma SpaceSkipped(s: string, scans: string -> bool)
    ensures ReadValue(" " + s, scans) == ReadValue(s, scans)
  {
    assert (" " + s)[1..] == s;
    assert SkipSpaces(" " + s) == SkipSpaces(s);
    assert ReadToken(" " + s).kind == ReadToken(s).kind && ReadToken(" " + s) == ReadToken(s);
    assert NextToken(" " + s) == NextToken(s);
  }

  lemma ColonToken(yaml: bool, s: string, scans: string -> bool)
    ensures ReadToken(Colon(yaml) + s).kind == MemberSeparator
    ensures ReadValue(ReadToken(Colon(yaml) + s).rest, scans) == ReadValue(s, scans)
  {
    hide ReadToken, ReadValue, NextToken;
    if yaml {
      assert Colon(yaml) + s == [':'] + (" " + s);
      SimpleToken(':', " " + s);
      SpaceSkipped(s, scans);
    } else {
      assert Colon(yaml) + s == [':'] + s;
      SimpleToken(':', s);
    }
  }

  lemma TokenIsNext(s: string)
    requires ReadToken(s).kind != CommentToken
    ensures NextToken(s) == ReadToken(s)
  {
  }

  /** What stands behind an item or a member ends a number. */
  lemma ItemsTerminate(items: seq<Value>, k: nat, yaml: bool, tail: string)
    requires 1 <= k <= |items|
    ensures Terminated(ItemsText(items, k, yaml) + tail)
    ensures k < |items| ==>
              ItemsText(items, k, yaml) + tail == [','] + (Text(items[k], yaml) + (ItemsText(items, k + 1, yaml) + tail))
    ensures k == |items| ==> ItemsText(items, k, yaml) + tail == [']'] + tail
  {
    hide Text;
    if k < |items| {
      var t, m := Text(items[k], yaml), ItemsText(items, k + 1, yaml);
      Sequences.Assoc([','], t + m, tail);
      Sequences.Assoc(t, m, tail);
    }
  }

  lemma MembersTerminate(members: seq<Member>, k: nat, yaml: bool, tail: string)
    requires 1 <= k <= |members|
    ensures Terminated(MembersText(members, k, yaml) + tail)
    ensures k < |members| ==> MembersText(members, k, yaml) + tail == [','] + MemberFrom(members, k, yaml, tail)
    ensures k == |members| ==> MembersText(members, k, yaml) + tail == ['}'] + tail
  {
    hide Text, Quoted, Colon;
    if k < |members| {
      var q, c, t, m := Quoted(members[k].name), Colon(yaml), Text(members[k].value, yaml), MembersText(members, k + 1, yaml);
      Sequences.Assoc([','], q + (c + (t + m)), tail);
      Sequences.Assoc(q, c + (t + m), tail);
      Sequences.Assoc(c, t + m, tail);
      Sequences.Assoc(t, m, tail);
    }
  }

  /** The text from the name of member `k` on. */
  function MemberFrom(members: seq<Member>, k: nat, yaml: bool, tail: string): (r: string)
    requires k < |members|
  {
    Quoted(members[k].name) + (Colon(yaml) + (Text(members[k].value, yaml) + (MembersText(members, k + 1, yaml) + tail)))
  }

  lemma {:induction false} ItemsRoundTrip(items: seq<Value>, k: nat, yaml: bool, tail: string, scans: string -> bool)
    requires k < |items| && StorableItems(items) && ScansIntegers(scans)
    ensures ReadItems(Text(items[k], yaml) + (ItemsText(items, k + 1, yaml) + tail), ImageItems(items)[..k], scans)
         == Some(Result(Arr(ImageItems(items)), tail))
    decreases items, |items| - k
  {
    hide Text, ItemsText, ReadValue, NextToken, Image, ImageItems, ScansIntegers;
    ItemsLength(items);
    var rest, images := ItemsText(items, k + 1, yaml) + tail, ImageItems(items);
    ItemsTerminate(items, k + 1, yaml, tail);
    ValueRoundTrip(items[k], yaml, rest, scans);
    ReadItemsStep(Text(items[k], yaml) + rest, images[..k], scans);
    ImageOfItem(items, k);
    assert images[..k] + [images[k]] == images[..k + 1];
    if k + 1 < |items| {
      SimpleToken(',', Text(items[k + 1], yaml) + (ItemsText(items, k + 2, yaml) + tail));
      ItemsRoundTrip(items, k + 1, yaml, tail, scans);
    } else {
      SimpleToken(']', tail);
      assert images[..k + 1] == images;
    }
  }

  /** One member behind those that have been read, provided that its value is read back. */
  lemma {:induction false} OneMember(members: seq<Member>, k: nat, done: seq<Member>, v: Value, name: string, yaml: bool,
                                     tail: string, scans: string -> bool)
    requires k < |members| && CString(members[k].name)
    requires var rest := MembersText(members, k + 1, yaml) + tail;
             ReadValue(Text(members[k].value, yaml) + rest, scans) == Some(Result(v, rest))
    requires Insert(done, members[k].name, v) == done + [Member(members[k].name, v)]
    ensures var more := done + [Member(members[k].name, v)];
            ReadObject(MemberFrom(members, k, yaml, tail), done, name, scans) ==
              if k + 1 == |members| then Some(Result(Obj(more), tail))
              else ReadObject(MemberFrom(members, k + 1, yaml, tail), more, members[k].name, scans)
  {
    hide Text, MembersText, ReadValue, NextToken, ReadToken, DecodeToken, Quoted, Colon, Insert, MemberFrom, ReadObject,
         CString, Cut;
    NothingCut(members[k].name);
    var rest := MembersText(members, k + 1, yaml) + tail;
    NameToken(members, k, yaml, tail);
    ReadObjectStep(MemberFrom(members, k, yaml, tail), done, name, scans);
    ColonToken(yaml, Text(members[k].value, yaml) + rest, scans);
    MembersTerminate(members, k + 1, yaml, tail);
    if k + 1 < |members| {
      SimpleToken(',', MemberFrom(members, k + 1, yaml, tail));
    } else {
      SimpleToken('}', tail);
    }
  }

  lemma {:induction false} MembersRoundTrip(members: seq<Member>, k: nat, name: string, yaml: bool, tail: string,
                                            scans: string -> bool)
    requires k < |members| && StorableMembers(members) && SortedNames(members) && ScansIntegers(scans)
    ensures ReadObject(MemberFrom(members, k, yaml, tail), ImageMembers(members)[..k], name, scans)
         == Some(Result(Obj(ImageMembers(members)), tail))
    decreases members, |members| - k
  {
    hide Text, MembersText, ReadValue, MemberFrom, Image, ScansIntegers, NameLess, ReadObject, Insert;
    var m, images := members[k], ImageMembers(members);
    MembersLength(members);
    MembersTerminate(members, k + 1, yaml, tail);
    ValueRoundTrip(m.value, yaml, MembersText(members, k + 1, yaml) + tail, scans);
    ImageOfMember(members, k);
    InsertLast(images[..k], m.name, Image(m.value));
    OneMember(members, k, images[..k], Image(m.value), name, yaml, tail, scans);
    assert images[..k] + [images[k]] == images[..k + 1];
    if k + 1 < |members| {
      MembersRoundTrip(members, k + 1, m.name, yaml, tail, scans);
    } else {
      assert images[..k + 1] == images;
    }
  }

  lemma NameToken(members: seq<Member>, k: nat, yaml: bool, tail: string)
    requires k < |members|
    ensures var value := Text(members[k].value, yaml) + (MembersText(members, k + 1, yaml) + tail);
            NextToken(MemberFrom(members, k, yaml, tail)) ==
              Token(StringToken, Quoted(members[k].name), Colon(yaml) + value)
    ensures DecodeToken(Quoted(members[k].name)) == Some(members[k].name)
  {
    hide Text, MembersText, Quoted, Colon, ReadToken, DecodeToken;
    var value := Text(members[k].value, yaml) + (MembersText(members, k + 1, yaml) + tail);
    StringRoundTrip(members[k].name, Colon(yaml) + value);
    TokenIsNext(MemberFrom(members, k, yaml, tail));
  }

  /** Reading what was written gives the value's image, and stops right behind it. */
  lemma {:induction false} ValueRoundTrip(v: Value, yaml: bool, tail: string, scans: string -> bool)
    requires Storable(v) && Terminated(tail) && ScansIntegers(scans)
    ensures ReadValue(Text(v, yaml) + tail, scans) == Some(Result(Image(v), tail))
    decreases v, 1
  {
    match v
    case Null => WordRoundTrip("null", NullToken, v, tail, scans);
    case Bool(b) => WordRoundTrip(Text(v, yaml), if b then TrueToken else FalseToken, v, tail, scans);
    case Int(n) => NumberRoundTrip(n, tail, scans);
    case UInt(u) => NumberRoundTrip(u, tail, scans);
    case Str(s) => StrRoundTrip(s, tail, scans);
    case Arr(items) => ArrRoundTrip(items, yaml, tail, scans);
    case Obj(members) => ObjRoundTrip(members, yaml, tail, scans);
  }

  lemma WordRoundTrip(word: string, kind: Kind, v: Value, tail: string, scans: string -> bool)
    requires (word == "null" && kind == NullToken && v == Null) || (word == "true" && kind == TrueToken && v == Bool(true)) ||
             (word == "false" && kind == FalseToken && v == Bool(false))
    ensures ReadValue(word + tail, scans) == Some(Result(v, tail))
  {
    hide ReadToken;
    Word(word, kind, tail);
    TokenIsNext(word + tail);
  }

  lemma NumberRoundTrip(n: int, tail: string, scans: string -> bool)
    requires Terminated(tail) && ScansIntegers(scans)
    ensures ReadValue(IntText(n) + tail, scans) == Some(Result(NumberImage(n), tail))
  {
    hide ReadToken, DecodeNumber;
    NumberIsToken(n, tail);
    TokenIsNext(IntText(n) + tail);
    NumberDecoded(n, scans);
  }

  lemma {:induction false} NothingCut(s: string)
    requires CString(s)
    ensures Cut(s) == s
  {
    if s != "" {
      NothingCut(s[1..]);
    }
  }

  lemma StrRoundTrip(s: string, tail: string, scans: string -> bool)
    requires CString(s)
    ensures ReadValue(Quoted(s) + tail, scans) == Some(Result(Str(s), tail))
  {
    hide ReadToken, DecodeToken, Quoted, CString, Cut;
    StringRoundTrip(s, tail);
    NothingCut(s);
    TokenIsNext(Quoted(s) + tail);
  }

  lemma {:induction false} ArrRoundTrip(items: seq<Value>, yaml: bool, tail: string, scans: string -> bool)
    requires StorableItems(items) && ScansIntegers(scans)
    ensures ReadValue("[" + ItemsText(items, 0, yaml) + tail, scans) == Some(Result(Arr(ImageItems(items)), tail))
    decreases items, |items| + 1
  {
    hide Text, ReadItems, NextToken;
    var inner := ItemsText(items, 0, yaml) + tail;
    Sequences.Assoc("[", ItemsText(items, 0, yaml), tail);
    SimpleToken('[', inner);
    if items == [] {
      assert inner[1..] == tail;
    } else {
      var t, m := Text(items[0], yaml), ItemsText(items, 1, yaml);
      assert ItemsText(items, 0, yaml) == "" + (t + m);
      Sequences.NothingAround(t + m);
      Sequences.Assoc(t, m, tail);
      FirstChar(items[0], yaml);
      assert inner[0] == t[0];
      assert SkipSpaces(inner) == inner;
      ItemsRoundTrip(items, 0, yaml, tail, scans);
      assert ImageItems(items)[..0] == [];
    }
  }

  lemma {:induction false} ObjRoundTrip(members: seq<Member>, yaml: bool, tail: string, scans: string -> bool)
    requires StorableMembers(members) && SortedNames(members) && ScansIntegers(scans)
    ensures ReadValue("{" + MembersText(members, 0, yaml) + tail, scans) == Some(Result(Obj(ImageMembers(members)), tail))
    decreases members, |members| + 1
  {
    hide Text, ReadObject, NextToken, Quoted, Colon;
    var inner := MembersText(members, 0, yaml) + tail;
    Sequences.Assoc("{", MembersText(members, 0, yaml), tail);
    SimpleToken('{', inner);
    if members == [] {
      SimpleToken('}', tail);
      ReadObjectStep(inner, [], "", scans);
    } else {
      var q, c, t, m := Quoted(members[0].name), Colon(yaml), Text(members[0].value, yaml), MembersText(members, 1, yaml);
      assert MembersText(members, 0, yaml) == "" + (q + (c + (t + m)));
      Sequences.NothingAround(q + (c + (t + m)));
      Sequences.Assoc(q, c + (t + m), tail);
      Sequences.Assoc(c, t + m, tail);
      Sequences.Assoc(t, m, tail);
      MembersRoundTrip(members, 0, "", yaml, tail, scans);
      assert ImageMembers(members)[..0] == [];
    }
  }

  lemma {:induction false} StorableHasNoDoubles(v: Value)
    requires Storable(v)
    ensures NoDoubles(v)
    decreases v
  {
    match v {
      case Arr(items) =>
        forall i | 0 <= i < |items|
          ensures NoDoubles(items[i])
        {
          StorableHasNoDoubles(items[i]);
        }
      case Obj(members) =>
        forall i | 0 <= i < |members|
          ensures NoDoubles(members[i].value)
        {
          StorableHasNoDoubles(members[i].value);
        }
      case _ =>
    }
  }

  /** Parsing what FastWriter has written gives the value back exactly when all its numbers survive:
      an Int of at least -2147483639, a UInt above the largest Int and at most 4294967289. */
  lemma DocumentRoundTrip(v: Value, yaml: bool, shows: string -> string, scans: string -> bool)
    requires Storable(v) && ScansIntegers(scans)
    ensures Parse(Text(Shown(v, shows), yaml) + "\n", scans) == Some(Image(v))
    ensures Parse(Text(Shown(v, shows), yaml) + "\n", scans) == Some(v) <==> NumbersSurvive(v)
  {
    hide ReadValue, Text, Image, Storable, NumbersSurvive, ScansIntegers, Shown, NoDoubles;
    StorableHasNoDoubles(v);
    ShownWithoutDoubles(v, shows);
    ValueRoundTrip(v, yaml, "\n", scans);
    SameImage(v);
  }

  /** A number whose written form is read as a double, and one that is read as an Int. */
  lemma NumberThatChanges(scans: string -> bool)
    requires ScansIntegers(scans)
    ensures Parse(Text(Int(-2147483640), false) + "\n", scans) == Some(Real(IntText(-2147483640)))
    ensures Parse(Text(UInt(7), false) + "\n", scans) == Some(Int(7))
  {
    hide ReadValue;
    NumberRoundTrip(-2147483640, "\n", scans);
    NumberRoundTrip(7, "\n", scans);
  }

  /** What stands behind an escaped NUL is lost, in names as in strings. */
  lemma {:induction false} CutBehind(s: string, t: string)
    requires CString(s)
    ensures Cut(s + [NUL] + t) == s
  {
    if s != "" {
      CutBehind(s[1..], t);
      assert (s + [NUL] + t)[1..] == s[1..] + [NUL] + t;
    }
  }

  // ------------------------------------------------------------- array separators

  /** The items of an array as the grammar has them: commas between them and a bracket behind the last. */
  function CommaItems(s: string, items: seq<Value>, scans: string -> bool): (r: Option<Result>)
    decreases |s|
  {
    match ReadValue(s, scans)
    case None => None
    case Some(item) =>
      var t := NextToken(item.rest);
      if t.kind == ArrayEnd then Some(Result(Arr(items + [item.value]), t.rest))
      else if t.kind == ArraySeparator then CommaItems(t.rest, items + [item.value], scans)
      else None
  }

  /** Some token behind an item is neither a comma nor the closing bracket. */
  predicate OtherSeparator(s: string, scans: string -> bool)
    decreases |s|
  {
    match ReadValue(s, scans)
    case None => false
    case Some(item) =>
      var t := NextToken(item.rest);
      t.kind != ArrayEnd && (t.kind != ArraySeparator || OtherSeparator(t.rest, scans))
  }

  /** What the reader takes for items is what the grammar does, except behind another separator. */
  lemma {:induction false} SeparatorsMatter(s: string, items: seq<Value>, scans: string -> bool)
    ensures CommaItems(s, items, scans) == if OtherSeparator(s, scans) then None else ReadItems(s, items, scans)
    ensures ReadItems(s, items, scans) != CommaItems(s, items, scans) <==>
            ReadItems(s, items, scans).Some? && OtherSeparator(s, scans)
    decreases |s|
  {
    hide ReadValue, ReadItems, NextToken;
    ReadItemsStep(s, items, scans);
    match ReadValue(s, scans) {
      case None =>
      case Some(item) =>
        SeparatorsMatter(NextToken(item.rest).rest, items + [item.value], scans);
    }
  }

  /** In arrays any token is taken for a separator, so a colon will do. */
  lemma ColonSeparatesItems(scans: string -> bool)
    requires ScansIntegers(scans)
    ensures Parse("[1:2]", scans) == Some(Arr([Int(1), Int(2)])) && OtherSeparator("1:2]", scans)
  {
    hide ReadValue, ReadItems, NextToken, ReadToken;
    var one, two := IntText(1), IntText(2);
    assert one == "1" && two == "2";
    assert "[1:2]" == ['['] + "1:2]" && "1:2]" == one + ":2]" && ":2]" == [':'] + "2]" && "2]" == two + "]" && "]" == [']'] + "";
    NumberRoundTrip(1, ":2]", scans);
    NumberRoundTrip(2, "]", scans);
    SimpleToken('[', "1:2]");
    SimpleToken(':', "2]");
    SimpleToken(']', "");
    ReadItemsStep("1:2]", [], scans);
    ReadItemsStep("2]", [Int(1)], scans);
    assert [] + [Int(1)] == [Int(1)] && [Int(1)] + [Int(2)] == [Int(1), Int(2)];
    ArrayStart("1:2]", scans);
  }

  lemma ArrayStart(s: string, scans: string -> bool)
    requires s != "" && !IsSpace(s[0]) && s[0] != ']'
    ensures ReadValue(['['] + s, scans) == ReadItems(s, [], scans)
  {
    hide ReadItems, NextToken;
    SimpleToken('[', s);
    assert SkipSpaces(s) == s;
  }

  // ------------------------------------------------------------ member separators

  /** The members of an object as the grammar has them, comments aside: commas between them and a brace behind
      the last; `first` while none has been read. */
  function CommaMembers(s: string, members: seq<Member>, first: bool, scans: string -> bool): (r: Option<Result>)
    decreases |s|
  {
    var t := NextToken(s);
    if t.kind == ObjectEnd then if first then Some(Result(Obj(members), t.rest)) else None
    else if t.kind != StringToken then None
    else match DecodeToken(t.text)
      case None => None
      case Some(name) =>
        var colon := ReadToken(t.rest);
        if colon.kind != MemberSeparator then None
        else match ReadValue(colon.rest, scans)
          case None => None
          case Some(item) =>
            var more, end := Insert(members, Cut(name), item.value), NextToken(item.rest);
            if end.kind == ObjectEnd then Some(Result(Obj(more), end.rest))
            else if end.kind == ArraySeparator then CommaMembers(end.rest, more, false, scans)
            else None
  }

  /** Something else than a comma or the closing brace stands behind a member and a comment, or the brace stands
      behind a comma and a member without a name. */
  predicate OtherEnd(s: string, name: string, first: bool, scans: string -> bool)
    decreases |s|
  {
    var t := NextToken(s);
    if t.kind == ObjectEnd then !first && name == ""
    else
      t.kind == StringToken && DecodeToken(t.text).Some? &&
      var colon := ReadToken(t.rest);
      colon.kind == MemberSeparator && ReadValue(colon.rest, scans).Some? &&
      var rest := ReadValue(colon.rest, scans).value.rest;
      AfterMember(rest).Some? &&
      var end := AfterMember(rest).value;
      end.kind != ObjectEnd &&
      (end.kind != ArraySeparator || OtherEnd(end.rest, DecodeToken(t.text).value, false, scans))
  }

  /** What the reader takes for members is what the grammar does, except in these two cases. */
  lemma {:induction false} MemberSeparatorsMatter(s: string, members: seq<Member>, name: string, first: bool,
                                                  scans: string -> bool)
    requires first ==> name == ""
    ensures CommaMembers(s, members, first, scans) ==
            if OtherEnd(s, name, first, scans) then None else ReadObject(s, members, name, scans)
    ensures ReadObject(s, members, name, scans) != CommaMembers(s, members, first, scans) <==>
            ReadObject(s, members, name, scans).Some? && OtherEnd(s, name, first, scans)
    decreases |s|
  {
    hide ReadValue, ReadObject, NextToken, ReadToken, DecodeToken, Insert, Cut, AfterMember;
    ReadObjectStep(s, members, name, scans);
    var t := NextToken(s);
    if t.kind == StringToken && DecodeToken(t.text).Some? {
      var newName, colon := DecodeToken(t.text).value, ReadToken(t.rest);
      if colon.kind == MemberSeparator && ReadValue(colon.rest, scans).Some? {
        var item := ReadValue(colon.rest, scans).value;
        BehindMember(item.rest);
        var more, end := Insert(members, Cut(newName), item.value), NextToken(item.rest);
        if end.kind == ArraySeparator {
          SmallerRest(s, t, colon, item, end);
          MemberSeparatorsMatter(end.rest, more, newName, false, scans);
        }
      }
    }
  }

  /** A comma or a brace is read behind a member, with comments or without. */
  lemma BehindMember(s: string)
    ensures match AfterMember(s)
            case None => NextToken(s).kind != ObjectEnd && NextToken(s).kind != ArraySeparator
            case Some(end) => end == NextToken(s)
  {
    hide NextToken, ReadToken;
    ReadTokenAdvances(s);
  }

  lemma SmallerRest(s: string, t: Token, colon: Token, item: Result, end: Token)
    requires t == NextToken(s) && t.kind == StringToken && colon == ReadToken(t.rest)
    requires |item.rest| < |colon.rest| && end == NextToken(item.rest)
    ensures |end.rest| < |s|
  {
    hide NextToken, ReadToken;
  }

  /** A member, and what stands behind its value. */
  lemma {:induction false} MemberRead(name: string, n: int, behind: string, members: seq<Member>, last: string,
                                      scans: string -> bool)
    requires ScansIntegers(scans) && Terminated(behind) && CString(name)
    ensures var s := Quoted(name) + ([':'] + (IntText(n) + behind));
            var more := Insert(members, name, NumberImage(n));
            ReadObject(s, members, last, scans) ==
              (match AfterMember(behind)
               case None => None
               case Some(end) =>
                 if end.kind == ObjectEnd then Some(Result(Obj(more), end.rest))
                 else ReadObject(end.rest, more, name, scans)) &&
            (AfterMember(behind).Some? ==>
              var end := AfterMember(behind).value;
              OtherEnd(s, last, true, scans) <==>
                end.kind != ObjectEnd && (end.kind != ArraySeparator || OtherEnd(end.rest, name, false, scans)))
  {
    hide ReadValue, ReadObject, NextToken, ReadToken, DecodeToken, Insert, AfterMember, Cut, CString, Quoted, IntText,
         NumberImage, Terminated;
    var value := IntText(n) + behind;
    StringRoundTrip(name, [':'] + value);
    TokenIsNext(Quoted(name) + ([':'] + value));
    SimpleToken(':', value);
    NumberRoundTrip(n, behind, scans);
    NothingCut(name);
    ReadObjectStep(Quoted(name) + ([':'] + value), members, last, scans);
  }

  /** A comma behind a member without a name: the brace behind it is accepted. */
  lemma {:induction false} TrailingComma(scans: string -> bool)
    requires ScansIntegers(scans)
    ensures var s := Quoted("") + ([':'] + (IntText(1) + ",}"));
            Parse(['{'] + s, scans) == Some(Obj([Member("", Int(1))])) && OtherEnd(s, "", true, scans)
  {
    hide ReadValue, NextToken, ReadToken, Quoted, IntText, DecodeToken;
    var s := Quoted("") + ([':'] + (IntText(1) + ",}"));
    MemberRead("", 1, ",}", [], "", scans);
    assert ",}" == [','] + "}" && "}" == ['}'] + "";
    SimpleToken(',', "}");
    SimpleToken('}', "");
    assert Insert([], "", Int(1)) == [Member("", Int(1))];
    ReadObjectStep("}", [Member("", Int(1))], "", scans);
    ObjectStart(s, scans);
  }

  /** A comment and a colon behind a member: the colon is taken for the separator. */
  lemma {:induction false} CommentAndColon(scans: string -> bool)
    requires ScansIntegers(scans)
    ensures var t := Quoted("b") + ([':'] + (IntText(2) + "}"));
            var s := Quoted("a") + ([':'] + (IntText(1) + ("/**/" + ([':'] + t))));
            Parse(['{'] + s, scans) == Some(Obj([Member("a", Int(1)), Member("b", Int(2))])) && OtherEnd(s, "", true, scans)
  {
    hide ReadValue, NextToken, ReadToken, Quoted, IntText, DecodeToken, ReadObject, OtherEnd;
    var t := Quoted("b") + ([':'] + (IntText(2) + "}"));
    var s := Quoted("a") + ([':'] + (IntText(1) + ("/**/" + ([':'] + t))));
    MemberRead("a", 1, "/**/" + ([':'] + t), [], "", scans);
    EmptyComment([':'] + t);
    SimpleToken(':', t);
    assert Insert([], "a", Int(1)) == [Member("a", Int(1))];
    MemberRead("b", 2, "}", [Member("a", Int(1))], "a", scans);
    assert "}" == ['}'] + "";
    SimpleToken('}', "");
    assert [Member("a", Int(1))][1..] == [];
    assert Insert([Member("a", Int(1))], "b", Int(2)) == [Member("a", Int(1)), Member("b", Int(2))];
    ObjectStart(s, scans);
  }

  lemma {:induction false} EmptyComment(rest: string)
    ensures ReadToken("/**/" + rest) == Token(CommentToken, "/**/", rest)
  {
    hide ScanNumber, ScanString, Match, ScanCppStyle;
    var s := "/**/" + rest;
    assert SkipSpaces(s) == s && s[1..][1..] == s[2..] && s[2..][2..] == rest;
    assert ScanCStyle(s[2..]) == Scan(true, rest);
  }

  lemma ObjectStart(s: string, scans: string -> bool)
    ensures ReadValue(['{'] + s, scans) == ReadObject(s, [], "", scans)
  {
    hide ReadObject, NextToken;
    SimpleToken('{', s);
  }
}
