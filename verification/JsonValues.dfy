/** JSON values and the compact writer (src/lib/api/jsonrpc/json/json_writer.cpp:16-263). */
module JsonValues {
  import Bits
  import Sequences

  /** Objects are kept in the order of std::map: by name. Real numbers stand for the text that they were read from. */
  datatype Value =
    | Null
    | Bool(b: bool)
    | Int(n: int)
    | UInt(u: int)
    | Real(text: string)
    | Str(s: string)
    | Arr(items: seq<Value>)
    | Obj(members: seq<Member>)

  datatype Member = Member(name: string, value: Value)

  const MIN_INT := -0x8000_0000
  const MAX_INT := 0x7fff_ffff
  const MAX_UINT := 0xffff_ffff

  // --------------------------------------------------------------------- numbers

  function DigitChar(d: int): (r: char)
    requires 0 <= d < 10
  {
    (d + '0' as int) as char
  }

  /** The decimal digits of a number. */
  function Digits(n: nat): (r: string)
    ensures r != "" && forall i :: 0 <= i < |r| ==> '0' <= r[i] <= '9'
  {
    if n < 10 then [DigitChar(n)] else Digits(n / 10) + [DigitChar(n % 10)]
  }

  function IntText(n: int): (r: string) {
    if n < 0 then "-" + Digits(-n) else Digits(n)
  }

  lemma {:induction false} DigitCount(n: nat, e: nat)
    requires 1 <= e && n < Bits.Pow10(e)
    ensures |Digits(n)| <= e
  {
    if n >= 10 {
      DigitCount(n / 10, e - 1);
    }
  }

  lemma {:induction false} LastDigit(n: nat, written: string)
    ensures Digits(n) + written ==
            if n / 10 != 0 then Digits(n / 10) + ([DigitChar(n % 10)] + written) else [DigitChar(n % 10)] + written
  {
    if n >= 10 {
      Sequences.Assoc(Digits(n / 10), [DigitChar(n % 10)], written);
    }
  }

  lemma TenDigits(n: nat)
    requires n <= MAX_UINT
    ensures |Digits(n)| <= 10
  {
    assert Bits.Pow10(5) == 100000;
    DigitCount(n, 10);
  }

  /** *--current = digit. */
  method PutBefore(buffer: array<char>, current: nat, digit: char) returns (before: nat)
    requires 0 < current <= buffer.Length
    modifies buffer
    ensures before == current - 1 && buffer[before..] == [digit] + old(buffer[current..])
  {
    before := current - 1;
    buffer[before] := digit;
    assert buffer[before..][1..] == buffer[current..] == old(buffer[current..]);
  }

  /** uintToString: the digits go into the buffer from its end; ten are enough for 32 bits. */
  method UintToString(value: nat) returns (text: string)
    requires value <= MAX_UINT
    ensures text == Digits(value)
  {
    hide Digits, DigitChar, Bits.Pow10;
    var buffer := new char[32](i => '0');
    var current, rest: nat := 32, value;
    ghost var written := "";
    Sequences.NothingAround(Digits(value));
    TenDigits(value);
    var more := true;
    while more
      invariant 0 <= current <= 32 && buffer[current..] == written
      invariant (if more then Digits(rest) + written else written) == Digits(value)
      decreases more, rest
    {
      LastDigit(rest, written);
      var digit := DigitChar(rest % 10);
      assert |[digit] + written| <= |Digits(value)|;
      current := PutBefore(buffer, current, digit);
      written := [digit] + written;
      rest := rest / 10;
      more := rest != 0;
    }
    text := buffer[current..];
  }

  /** valueToString for an Int. The negation of the least one wraps to itself, and read as a UInt that is its
      magnitude. */
  method IntToString(value: int) returns (text: string)
    requires MIN_INT <= value <= MAX_INT
    ensures text == IntText(value)
  {
    var isNegative := value < 0;
    var negated := if value == MIN_INT then MIN_INT else -value;
    text := UintToString(if !isNegative then value else if negated < 0 then negated + 0x1_0000_0000 else negated);
    if isNegative {
      text := "-" + text;
    }
  }

  // --------------------------------------------------------------------- strings

  predicate IsControl(c: char) {
    0 < c as int <= 0x1f
  }

  /** A byte of a C string. */
  predicate IsByte(c: char) {
    0 < c as int <= 0xff
  }

  function UpperHex(d: int): (r: char)
    requires 0 <= d < 16
  {
    if d < 10 then DigitChar(d) else (d - 10 + 'A' as int) as char
  }

  function Escaped(c: char): (r: string) {
    if c == '"' then "\\\""
    else if c == '\\' then "\\\\"
    else if c as int == 8 then "\\b"
    else if c as int == 12 then "\\f"
    else if c == '\n' then "\\n"
    else if c == '\r' then "\\r"
    else if c == '\t' then "\\t"
    else if IsControl(c) then "\\u00" + [UpperHex(c as int / 16), UpperHex(c as int % 16)]
    else [c]
  }

  function EscapedText(s: string): (r: string) {
    if s == "" then "" else Escaped(s[0]) + EscapedText(s[1..])
  }

  function Quoted(s: string): (r: string) {
    "\"" + EscapedText(s) + "\""
  }

  predicate NeedsEscape(c: char) {
    c == '"' || c == '\\' || IsControl(c)
  }

  lemma {:induction false} NothingToEscape(s: string)
    requires forall i :: 0 <= i < |s| ==> !NeedsEscape(s[i])
    ensures EscapedText(s) == s
  {
    if s != "" {
      NothingToEscape(s[1..]);
      assert Escaped(s[0]) == [s[0]];
      assert s == [s[0]] + s[1..];
    }
  }

  /** valueToQuotedString: a string without special characters is quoted as it is. */
  method ValueToQuotedString(value: string) returns (result: string)
    ensures result == Quoted(value)
  {
    var plain := true;
    for k := 0 to |value|
      invariant plain <==> forall i :: 0 <= i < k ==> !NeedsEscape(value[i])
    {
      if NeedsEscape(value[k]) {
        plain := false;
      }
    }
    if plain {
      NothingToEscape(value);
      return "\"" + value + "\"";
    }
    result := "\"";
    for k := 0 to |value|
      invariant result + EscapedText(value[k..]) == "\"" + EscapedText(value)
    {
      assert value[k..][1..] == value[k + 1..];
      Sequences.Assoc(result, Escaped(value[k]), EscapedText(value[k + 1..]));
      result := result + Escaped(value[k]);
    }
    Sequences.NothingAround(result);
    result := result + "\"";
  }

  // ----------------------------------------------------------------------- values

  /** The text of a value; `yaml` puts a space behind colons. */
  function Text(v: Value, yaml: bool): (r: string)
    decreases v, 0
  {
    match v
    case Null => "null"
    case Bool(b) => if b then "true" else "false"
    case Int(n) => IntText(n)
    case UInt(u) => IntText(u)
    case Real(text) => text
    case Str(s) => Quoted(s)
    case Arr(items) => "[" + ItemsText(items, 0, yaml)
    case Obj(members) => "{" + MembersText(members, 0, yaml)
  }

  /** What follows in an array from item `k` on. */
  function ItemsText(items: seq<Value>, k: nat, yaml: bool): (r: string)
    requires k <= |items|
    decreases items, |items| - k
  {
    if k == |items| then "]"
    else (if k > 0 then "," else "") + (Text(items[k], yaml) + ItemsText(items, k + 1, yaml))
  }

  function Colon(yaml: bool): (r: string) { if yaml then ": " else ":" }

  function MembersText(members: seq<Member>, k: nat, yaml: bool): (r: string)
    requires k <= |members|
    decreases members, |members| - k
  {
    if k == |members| then "}"
    else
      (if k > 0 then "," else "") +
      (Quoted(members[k].name) + (Colon(yaml) + (Text(members[k].value, yaml) + MembersText(members, k + 1, yaml))))
  }

  /** The value with every double replaced by what is printed for it. */
  function Shown(v: Value, shows: string -> string): (r: Value)
    decreases v, 0
  {
    match v
    case Real(text) => Real(shows(text))
    case Arr(items) => Arr(ShownItems(items, shows))
    case Obj(members) => Obj(ShownMembers(members, shows))
    case _ => v
  }

  function ShownItems(items: seq<Value>, shows: string -> string): (r: seq<Value>)
    ensures |r| == |items| && forall i :: 0 <= i < |items| ==> r[i] == Shown(items[i], shows)
    decreases items
  {
    seq(|items|, i requires 0 <= i < |items| => Shown(items[i], shows))
  }

  function ShownMembers(members: seq<Member>, shows: string -> string): (r: seq<Member>)
    ensures |r| == |members|
    ensures forall i :: 0 <= i < |members| ==> r[i] == Member(members[i].name, Shown(members[i].value, shows))
    decreases members
  {
    seq(|members|, i requires 0 <= i < |members| => Member(members[i].name, Shown(members[i].value, shows)))
  }

  /** Without doubles nothing is replaced. */
  lemma {:induction false} ShownWithoutDoubles(v: Value, shows: string -> string)
    requires NoDoubles(v)
    ensures Shown(v, shows) == v
    decreases v
  {
    match v {
      case Arr(items) =>
        forall i | 0 <= i < |items|
          ensures Shown(items[i], shows) == items[i]
        {
          ShownWithoutDoubles(items[i], shows);
        }
        assert ShownItems(items, shows) == items;
      case Obj(members) =>
        forall i | 0 <= i < |members|
          ensures Member(members[i].name, Shown(members[i].value, shows)) == members[i]
        {
          ShownWithoutDoubles(members[i].value, shows);
        }
        assert ShownMembers(members, shows) == members;
      case _ =>
    }
  }

  ghost predicate NoDoubles(v: Value)
    decreases v, 0
  {
    match v
    case Real(_) => false
    case Arr(items) => forall i :: 0 <= i < |items| ==> NoDoubles(items[i])
    case Obj(members) => forall i :: 0 <= i < |members| ==> NoDoubles(members[i].value)
    case _ => true
  }

  /** Numbers of the C++ types, arrays and objects of such. */
  predicate Writable(v: Value)
    decreases v, 0
  {
    match v
    case Int(n) => MIN_INT <= n <= MAX_INT
    case UInt(u) => 0 <= u <= MAX_UINT
    case Arr(items) => WritableItems(items)
    case Obj(members) => WritableMembers(members)
    case _ => true
  }

  predicate WritableItems(items: seq<Value>)
    decreases items
  {
    forall i :: 0 <= i < |items| ==> Writable(items[i])
  }

  predicate WritableMembers(members: seq<Member>)
    decreases members
  {
    forall i :: 0 <= i < |members| ==> Writable(members[i].value)
  }

  class FastWriter {
    const yaml: bool
    /** The text that sprintf and the cutting of zeros give for a double. */
    const shows: string -> string
    var document: string

    constructor (yaml: bool, shows: string -> string)
      ensures document == "" && this.yaml == yaml && this.shows == shows
    {
      this.yaml, this.shows := yaml, shows;
      document := "";
    }

    method Append(s: string)
      modifies this
      ensures document == old(document) + s
    {
      document := document + s;
    }

    method Write(root: Value) returns (r: string)
      requires Writable(root)
      modifies this
      ensures r == Text(Shown(root, shows), yaml) + "\n"
    {
      document := "";
      WriteValue(root);
      Sequences.NothingAround(Text(Shown(root, shows), yaml));
      Append("\n");
      r := document;
    }

    method WriteValue(value: Value)
      requires Writable(value)
      modifies this
      ensures document == old(document) + Text(Shown(value, shows), yaml)
      decreases value, 0
    {
      match value
      case Null =>
        Append("null");
      case Bool(b) =>
        Append(if b then "true" else "false");
      case Int(n) =>
        var t := IntToString(n);
        Append(t);
      case UInt(u) =>
        var t := UintToString(u);
        Append(t);
      case Real(text) =>
        Append(shows(text));
      case Str(s) =>
        var t := ValueToQuotedString(s);
        Append(t);
      case Arr(items) =>
        WriteItems(items);
      case Obj(members) =>
        WriteMembers(members);
    }

    method WriteItems(items: seq<Value>)
      requires WritableItems(items)
      modifies this
      ensures document == old(document) + ("[" + ItemsText(ShownItems(items, shows), 0, yaml))
      decreases items
    {
      hide ItemsText, Text, Shown;
      ghost var start, shown := document, ShownItems(items, shows);
      Append("[");
      for index := 0 to |items|
        invariant document + ItemsText(shown, index, yaml) == start + ("[" + ItemsText(shown, 0, yaml))
      {
        Items(document, shown, index, yaml);
        if index > 0 {
          Append(",");
        }
        WriteValue(items[index]);
      }
      LastItem(shown, yaml);
      Append("]");
    }

    method WriteMembers(members: seq<Member>)
      requires WritableMembers(members)
      modifies this
      ensures document == old(document) + ("{" + MembersText(ShownMembers(members, shows), 0, yaml))
      decreases members
    {
      hide MembersText, Text, Shown, Quoted;
      ghost var start, shown := document, ShownMembers(members, shows);
      Append("{");
      for index := 0 to |members|
        invariant document + MembersText(shown, index, yaml) == start + ("{" + MembersText(shown, 0, yaml))
      {
        Members(document, shown, index, yaml);
        if index > 0 {
          Append(",");
        }
        var name := ValueToQuotedString(members[index].name);
        Append(name);
        Append(Colon(yaml));
        WriteValue(members[index].value);
      }
      LastMember(shown, yaml);
      Append("}");
    }
  }

  lemma LastItem(items: seq<Value>, yaml: bool)
    ensures ItemsText(items, |items|, yaml) == "]"
  {
  }

  lemma LastMember(members: seq<Member>, yaml: bool)
    ensures MembersText(members, |members|, yaml) == "}"
  {
  }

  lemma Items(d: string, items: seq<Value>, k: nat, yaml: bool)
    requires k < |items|
    ensures d + ItemsText(items, k, yaml) ==
            d + (if k > 0 then "," else "") + Text(items[k], yaml) + ItemsText(items, k + 1, yaml)
    ensures d + "" == d
  {
    hide Text;
    var comma := if k > 0 then "," else "";
    Sequences.Assoc(d + comma, Text(items[k], yaml), ItemsText(items, k + 1, yaml));
    Sequences.Assoc(d, comma, Text(items[k], yaml) + ItemsText(items, k + 1, yaml));
  }

  lemma Members(d: string, members: seq<Member>, k: nat, yaml: bool)
    requires k < |members|
    ensures d + MembersText(members, k, yaml) ==
            d + (if k > 0 then "," else "") + Quoted(members[k].name) + Colon(yaml) + Text(members[k].value, yaml) +
            MembersText(members, k + 1, yaml)
    ensures d + "" == d
  {
    hide Text, Quoted;
    var comma, name, value, rest :=
      if k > 0 then "," else "", Quoted(members[k].name), Text(members[k].value, yaml), MembersText(members, k + 1, yaml);
    Sequences.Assoc(d, comma, name + (Colon(yaml) + (value + rest)));
    Sequences.Assoc(d + comma, name, Colon(yaml) + (value + rest));
    Sequences.Assoc(d + comma + name, Colon(yaml), value + rest);
    Sequences.Assoc(d + comma + name + Colon(yaml), value, rest);
  }
}
