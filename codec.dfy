/** The text form a member takes in Redis.

    The source hands members to Jackson (`writeValueAsString` and
    `readValue`), which writes `{"id":1,"name":"Jang"}`. The model fixes that
    canonical form: the id in decimal, the name between quotes with `"` and
    `\` escaped, and proves that reading back what was written yields the same
    member. `Decode` accepts every text `Encode` produces, and a few more
    (an id with leading zeros, or `-0`). */
module Codec {
  import opened Outcomes
  import opened Domain

  const IdField: string := "{\"id\":"
  const NameField: string := ",\"name\":\""

  predicate IsDigit(c: char) { '0' <= c <= '9' }

  function DigitChar(d: nat): (c: char)
    requires d < 10
    ensures IsDigit(c)
  {
    (d + '0' as int) as char
  }

  function DigitValue(c: char): nat
    requires IsDigit(c)
  {
    c as int - '0' as int
  }

  /** Decimal digits of a natural number, most significant first. */
  function ShowNat(n: nat): (s: string)
    ensures |s| >= 1
    ensures forall i :: 0 <= i < |s| ==> IsDigit(s[i])
  {
    if n < 10 then [DigitChar(n)] else ShowNat(n / 10) + [DigitChar(n % 10)]
  }

  function ShowInt(x: int): (s: string)
    ensures |s| >= 1
  {
    if x < 0 then "-" + ShowNat(-x) else ShowNat(x)
  }

  /** The value of a run of digits, read most significant first. */
  function DigitsValue(ds: string): nat
    requires forall i :: 0 <= i < |ds| ==> IsDigit(ds[i])
  {
    if |ds| == 0 then 0
    else 10 * DigitsValue(ds[..|ds| - 1]) + DigitValue(ds[|ds| - 1])
  }

  /** Splits off the longest prefix of digits. */
  function SplitDigits(s: string): (r: (string, string))
    ensures r.0 + r.1 == s
    ensures forall i :: 0 <= i < |r.0| ==> IsDigit(r.0[i])
    ensures r.1 == [] || !IsDigit(r.1[0])
  {
    if |s| > 0 && IsDigit(s[0]) then
      var (ds, rest) := SplitDigits(s[1..]);
      ([s[0]] + ds, rest)
    else ([], s)
  }

  /** Reads an optionally negative decimal integer off the front of `s`. */
  function ParseInt(s: string): Option<(int, string)>
  {
    if |s| > 0 && s[0] == '-' then
      var split := SplitDigits(s[1..]);
      if |split.0| == 0 then None else Some((0 - DigitsValue(split.0), split.1))
    else
      var split := SplitDigits(s);
      if |split.0| == 0 then None else Some((DigitsValue(split.0), split.1))
  }

  function EscapeChar(c: char): string
  {
    if c == '"' || c == '\\' then ['\\', c] else [c]
  }

  function Escape(s: string): string
  {
    if |s| == 0 then [] else EscapeChar(s[0]) + Escape(s[1..])
  }

  /** Reads an escaped name up to its closing quote; returns the name and
      what follows the quote. */
  function Unescape(s: string): Option<(string, string)>
  {
    if |s| == 0 then None
    else if s[0] == '"' then Some(([], s[1..]))
    else if s[0] == '\\' then
      if |s| >= 2 && (s[1] == '"' || s[1] == '\\') then
        match Unescape(s[2..])
        case Some((name, rest)) => Some(([s[1]] + name, rest))
        case None => None
      else None
    else
      match Unescape(s[1..])
      case Some((name, rest)) => Some(([s[0]] + name, rest))
      case None => None
  }

  /** `writeValueAsString(member)`. */
  function Encode(m: Member): string
  {
    IdField + (ShowInt(m.id) + (NameField + (Escape(m.name) + "\"}")))
  }

  /** `readValue(text, Member::class.java)`; `None` where Jackson throws. */
  function Decode(s: string): Option<Member>
  {
    if !(IdField <= s) then None
    else
      var id := ParseInt(s[|IdField|..]);
      if id.None? || !(-0x8000_0000_0000_0000 <= id.value.0 < 0x8000_0000_0000_0000)
         || !(NameField <= id.value.1) then None
      else
        var name := Unescape(id.value.1[|NameField|..]);
        if name.None? || name.value.1 != "}" then None
        else Some(Member(id.value.0, name.value.0))
  }

  /** Kotlin's `Char.isWhitespace`: Java whitespace or a Unicode space separator. */
  predicate IsWhitespace(c: char)
  {
    var x := c as int;
    (9 <= x <= 13) || (28 <= x <= 32) || x == 0xA0 || x == 0x1680
    || (0x2000 <= x <= 0x200A) || x == 0x2028 || x == 0x2029
    || x == 0x202F || x == 0x205F || x == 0x3000
  }

  /** Kotlin's `isBlank` (the stored string is never null once it exists). */
  predicate IsBlank(s: string)
  {
    forall i :: 0 <= i < |s| ==> IsWhitespace(s[i])
  }

  lemma {:induction false} DigitsValueOfShowNat(n: nat)
    ensures DigitsValue(ShowNat(n)) == n
  {
    var s := ShowNat(n);
    if n >= 10 {
      DigitsValueOfShowNat(n / 10);
      assert s[..|s| - 1] == ShowNat(n / 10);
    }
  }

  lemma {:induction false} SplitDigitsOf(ds: string, rest: string)
    requires forall i :: 0 <= i < |ds| ==> IsDigit(ds[i])
    requires rest == [] || !IsDigit(rest[0])
    ensures SplitDigits(ds + rest) == (ds, rest)
  {
    var s := ds + rest;
    if |ds| > 0 {
      SplitDigitsOf(ds[1..], rest);
      assert s[0] == ds[0] && IsDigit(s[0]);
      assert s[1..] == ds[1..] + rest;
      assert [ds[0]] + ds[1..] == ds;
    } else {
      assert s == rest;
    }
  }

  /** Printing an integer and parsing it back gives the integer and leaves
      the text that follows untouched. */
  lemma {:induction false} ParseShowInt(x: int, rest: string)
    requires rest == [] || (!IsDigit(rest[0]))
    ensures ParseInt(ShowInt(x) + rest) == Some((x, rest))
  {
    if x < 0 {
      ParseShowNegative(x, rest);
    } else {
      ParseShowNat(x, rest);
    }
  }

  lemma {:induction false} ParseShowNat(n: nat, rest: string)
    requires rest == [] || (!IsDigit(rest[0]))
    ensures ParseInt(ShowNat(n) + rest) == Some((n, rest))
  {
    var ds := ShowNat(n);
    var s := ds + rest;
    SplitDigitsOf(ds, rest);
    DigitsValueOfShowNat(n);
    assert s[0] == ds[0];
    assert !(s[0] == '-');
  }

  lemma {:induction false} ParseShowNegative(x: int, rest: string)
    requires x < 0
    requires rest == [] || (!IsDigit(rest[0]))
    ensures ParseInt(ShowInt(x) + rest) == Some((x, rest))
  {
    var ds := ShowNat(-x);
    var s := ['-'] + (ds + rest);
    assert ShowInt(x) + rest == s;
    assert s[1..] == ds + rest;
    SplitDigitsOf(ds, rest);
    DigitsValueOfShowNat(-x);
  }

  lemma {:induction false} UnescapeEscape(name: string, rest: string)
    ensures Unescape(Escape(name) + "\"" + rest) == Some((name, rest))
  {
    if |name| == 0 {
      assert Escape(name) + "\"" + rest == ['"'] + rest;
    } else {
      UnescapeEscape(name[1..], rest);
      var c := name[0];
      var tail := Escape(name[1..]) + "\"" + rest;
      assert Escape(name) + "\"" + rest == EscapeChar(c) + tail;
      if c == '"' || c == '\\' {
        assert (EscapeChar(c) + tail)[2..] == tail;
      } else {
        assert (EscapeChar(c) + tail)[1..] == tail;
      }
      assert [c] + name[1..] == name;
    }
  }

  /** Jackson round trip: what `set` writes, `get` reads back unchanged. */
  lemma DecodeEncode(m: Member)
    ensures Decode(Encode(m)) == Some(m)
  {
    var s := Encode(m);
    var tail := NameField + (Escape(m.name) + "\"}");
    assert IdField <= s;
    assert s[|IdField|..] == ShowInt(m.id) + tail;
    ParseShowInt(m.id, tail);
    assert NameField <= tail;
    assert tail[|NameField|..] == Escape(m.name) + "\"" + "}";
    UnescapeEscape(m.name, "}");
  }

  /** An encoded member is never blank, so `get` never mistakes it for an
      empty value. */
  lemma EncodeNotBlank(m: Member)
    ensures !IsBlank(Encode(m))
  {
    assert Encode(m)[0] == '{';
  }
}
