/** The texts of JSON values, character by character (sections 2 to 6 of RFC 8259;
    src/lib/api/jsonrpc/json/json_writer.cpp:174-263). */
module JsonTexts {
  import opened Bits
  import opened JsonValues
  import opened JsonReader
  import Sequences

  /** The characters with these numbers. */
  function Chars(codes: seq<Byte>): (r: string)
    ensures |r| == |codes|
  {
    seq(|codes|, i requires 0 <= i < |codes| => codes[i] as char)
  }

  /** The three names. */
  lemma NamesWritten(yaml: bool)
    ensures Text(Null, yaml) == Chars([0x6e, 0x75, 0x6c, 0x6c])
    ensures Text(Bool(true), yaml) == Chars([0x74, 0x72, 0x75, 0x65])
    ensures Text(Bool(false), yaml) == Chars([0x66, 0x61, 0x6c, 0x73, 0x65])
  {
    assert "null" == Chars([0x6e, 0x75, 0x6c, 0x6c]);
    assert "true" == Chars([0x74, 0x72, 0x75, 0x65]);
    assert "false" == Chars([0x66, 0x61, 0x6c, 0x73, 0x65]);
  }

  // ------------------------------------------------------------------------- numbers

  /** What decimal digits write, the first counting most. */
  function Decimal(s: string): (r: int) {
    if s == "" then 0 else (s[0] as int - 0x30) * Pow10(|s| - 1) + Decimal(s[1..])
  }

  lemma {:induction false} OneDigitMore(s: string, c: char)
    ensures Decimal(s + [c]) == 10 * Decimal(s) + c as int - 0x30
  {
    if s == "" {
      assert [] + [c] == [c] && [c][1..] == [];
    } else {
      assert (s + [c])[1..] == s[1..] + [c];
      OneDigitMore(s[1..], c);
      var d, p := s[0] as int - 0x30, Pow10(|s| - 1);
      assert d * (10 * p) == 10 * (d * p);
    }
  }

  /** The digits write the number, and the first is no zero except in zero itself. */
  lemma {:induction false} DigitsWritten(n: nat)
    ensures Decimal(Digits(n)) == n && (n > 0 ==> Digits(n)[0] as int != 0x30)
    ensures forall i :: 0 <= i < |Digits(n)| ==> 0x30 <= Digits(n)[i] as int <= 0x39
    ensures n == 0 ==> |Digits(n)| == 1
  {
    if n >= 10 {
      DigitsWritten(n / 10);
      OneDigitMore(Digits(n / 10), DigitChar(n % 10));
    } else {
      OneDigitMore("", DigitChar(n));
      assert "" + [DigitChar(n)] == Digits(n);
    }
  }

  /** A minus sign in front of a negative number. */
  lemma NumbersWritten(n: int, yaml: bool)
    ensures n >= 0 ==> Text(Int(n), yaml) == Digits(n) && Text(UInt(n), yaml) == Digits(n)
    ensures n < 0 ==> Text(Int(n), yaml) == [0x2d as char] + Digits(-n)
  {
  }

  // ---------------------------------------------------------------- arrays and objects

  /** The parts with commas between them. */
  function Separated(parts: seq<string>): (r: string) {
    if parts == [] then "" else if |parts| == 1 then parts[0] else parts[0] + [0x2c as char] + Separated(parts[1..])
  }

  /** The texts of the items from `k` on. */
  function ItemTexts(items: seq<Value>, k: nat, yaml: bool): (r: seq<string>)
    requires k <= |items|
    ensures |r| == |items| - k && forall i :: 0 <= i < |r| ==> r[i] == Text(items[k + i], yaml)
  {
    seq(|items| - k, i requires 0 <= i < |items| - k => Text(items[k + i], yaml))
  }

  lemma {:induction false} ItemsWritten(items: seq<Value>, k: nat, yaml: bool)
    requires k <= |items|
    ensures ItemsText(items, k, yaml) ==
              (if 0 < k < |items| then [0x2c as char] else "") + (Separated(ItemTexts(items, k, yaml)) + [0x5d as char])
    decreases |items| - k
  {
    hide Text, ItemTexts;
    var parts := ItemTexts(items, k, yaml);
    if k < |items| {
      ItemsWritten(items, k + 1, yaml);
      assert parts[1..] == ItemTexts(items, k + 1, yaml);
      if k + 1 < |items| {
        AnotherPart(parts, [0x5d as char]);
      } else {
        assert Separated(parts[1..]) + [0x5d as char] == [0x5d as char];
      }
    }
  }

  /** The items between square brackets. */
  lemma ArrayWritten(items: seq<Value>, yaml: bool)
    ensures Text(Arr(items), yaml) == [0x5b as char] + (Separated(ItemTexts(items, 0, yaml)) + [0x5d as char])
  {
    hide ItemTexts, Separated;
    ItemsWritten(items, 0, yaml);
    Sequences.NothingAround(Separated(ItemTexts(items, 0, yaml)) + [0x5d as char]);
  }

  /** A quoted name, a colon and a value. */
  function MemberText(m: Member, yaml: bool): (r: string) {
    Quoted(m.name) + [0x3a as char] + (if yaml then [0x20 as char] else "") + Text(m.value, yaml)
  }

  lemma OneMember(m: Member, yaml: bool, rest: string)
    ensures Quoted(m.name) + (Colon(yaml) + (Text(m.value, yaml) + rest)) == MemberText(m, yaml) + rest
  {
    hide Quoted, Text;
    var q, t := Quoted(m.name), Text(m.value, yaml);
    assert Colon(yaml) == [0x3a as char] + (if yaml then [0x20 as char] else "");
    Sequences.Assoc(q, [0x3a as char], if yaml then [0x20 as char] else "");
    Sequences.Assoc(Colon(yaml), t, rest);
    Sequences.Assoc(q, Colon(yaml) + t, rest);
    Sequences.Assoc(q, Colon(yaml), t);
  }

  /** The texts of the members from `k` on. */
  function MemberTexts(members: seq<Member>, k: nat, yaml: bool): (r: seq<string>)
    requires k <= |members|
    ensures |r| == |members| - k && forall i :: 0 <= i < |r| ==> r[i] == MemberText(members[k + i], yaml)
  {
    seq(|members| - k, i requires 0 <= i < |members| - k => MemberText(members[k + i], yaml))
  }

  lemma {:induction false} MembersWritten(members: seq<Member>, k: nat, yaml: bool)
    requires k <= |members|
    ensures MembersText(members, k, yaml) ==
              (if 0 < k < |members| then [0x2c as char] else "") + (Separated(MemberTexts(members, k, yaml)) + [0x7d as char])
    decreases |members| - k
  {
    hide Text, Quoted, MemberText, MemberTexts, Colon;
    var parts := MemberTexts(members, k, yaml);
    if k < |members| {
      MembersWritten(members, k + 1, yaml);
      OneMember(members[k], yaml, MembersText(members, k + 1, yaml));
      assert parts[1..] == MemberTexts(members, k + 1, yaml);
      if k + 1 < |members| {
        AnotherPart(parts, [0x7d as char]);
      } else {
        assert Separated(parts[1..]) + [0x7d as char] == [0x7d as char];
      }
    }
  }

  lemma AnotherPart(parts: seq<string>, end: string)
    requires |parts| >= 2
    ensures Separated(parts) + end == parts[0] + ([0x2c as char] + (Separated(parts[1..]) + end))
  {
  }

  /** The members between curly brackets. */
  lemma ObjectWritten(members: seq<Member>, yaml: bool)
    ensures Text(Obj(members), yaml) ==
              [0x7b as char] + (Separated(MemberTexts(members, 0, yaml)) + [0x7d as char])
  {
    hide MemberTexts, Separated;
    MembersWritten(members, 0, yaml);
    Sequences.NothingAround(Separated(MemberTexts(members, 0, yaml)) + [0x7d as char]);
  }

  // -------------------------------------------------------------------------- reading

  /** Space, tab, line feed and carriage return are passed over, and nothing else is. */
  lemma SpacesRead(c: char, s: string)
    ensures SkipSpaces([c] + s) == if c as int in {0x20, 0x09, 0x0a, 0x0d} then SkipSpaces(s) else [c] + s
  {
    Sequences.ConsTail(c, s);
  }

  /** Names stand in the order of a dictionary. */
  lemma {:induction false} NameOrder(a: string, b: string)
    ensures NameLess(a, b) <==> exists k: nat :: Earlier(a, b, k)
    decreases |a|
  {
    if a != "" && b != "" && a[0] == b[0] {
      NameOrder(a[1..], b[1..]);
      if k: nat :| Earlier(a[1..], b[1..], k) {
        assert a[..k + 1] == [a[0]] + a[1..][..k] && b[..k + 1] == [b[0]] + b[1..][..k];
        assert Earlier(a, b, k + 1);
      }
      if k: nat :| Earlier(a, b, k) {
        assert k > 0;
        assert a[1..][..k - 1] == a[..k][1..] && b[1..][..k - 1] == b[..k][1..];
        assert Earlier(a[1..], b[1..], k - 1);
      }
    } else if NameLess(a, b) {
      assert Earlier(a, b, 0);
    }
  }

  /** They agree in `k` characters, and then the first ends or has the smaller one. */
  ghost predicate Earlier(a: string, b: string, k: nat) {
    k <= |a| && k < |b| && a[..k] == b[..k] && (k == |a| || a[k] < b[k])
  }
}
