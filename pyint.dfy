/** `int(s)` on a string, and `str(n)` as its inverse. */
module PyInt {
  import opened Base
  import opened PyStr

  predicate IsDigit(c: char) {
    '0' <= c <= '9'
  }

  /** The digits of a base-10 literal: `digit ('_'? digit)*`, that is, it
      starts and ends with a digit and every underscore sits between two
      digits. */
  predicate DigitGroups(u: string) {
    |u| > 0 && IsDigit(u[0]) && MoreGroups(u[1..])
  }

  /** `('_'? digit)*` */
  predicate MoreGroups(v: string)
    decreases |v|
  {
    || v == []
    || (IsDigit(v[0]) && MoreGroups(v[1..]))
    || (|v| > 1 && v[0] == '_' && IsDigit(v[1]) && MoreGroups(v[2..]))
  }

  /** The number the digits of `u` spell, underscores skipped. */
  function DigitsValue(u: string): nat {
    if u == [] then 0
    else
      var c := u[|u| - 1];
      if IsDigit(c) then DigitsValue(u[..|u| - 1]) * 10 + (c as int - '0' as int)
      else DigitsValue(u[..|u| - 1])
  }

  /** The blanks `int()` and `float()` skip around a number: `isspace()`
      without the four information separators U+001C to U+001F, which the
      number parsers do not treat as whitespace. */
  predicate IsNumberSpace(c: char) {
    IsSpace(c) && !('\U{1C}' <= c <= '\U{1F}')
  }

  /** The number parsers' `lstrip()`. */
  function NumberStripLeft(s: string): (r: string)
    ensures |r| <= |s| && r == s[|s| - |r|..]
    ensures forall i :: 0 <= i < |s| - |r| ==> IsNumberSpace(s[i])
    ensures r == [] || !IsNumberSpace(r[0])
    decreases |s|
  {
    if |s| > 0 && IsNumberSpace(s[0]) then NumberStripLeft(s[1..]) else s
  }

  /** The number parsers' `rstrip()`. */
  function NumberStripRight(s: string): (r: string)
    ensures |r| <= |s| && r == s[..|r|]
    ensures forall i :: |r| <= i < |s| ==> IsNumberSpace(s[i])
    ensures r == [] || !IsNumberSpace(r[|r| - 1])
    decreases |s|
  {
    if |s| > 0 && IsNumberSpace(s[|s| - 1]) then NumberStripRight(s[..|s| - 1]) else s
  }

  /** The text a number parser reads: `s` without its outer blanks. */
  function NumberStrip(s: string): string {
    NumberStripRight(NumberStripLeft(s))
  }

  /** `int(s)`: surrounding blanks are ignored, one optional sign, then
      base-10 digit groups; anything else is a ValueError (here `None`). */
  function ParseInt(s: string): Option<int> {
    var t := NumberStrip(s);
    if |t| > 0 && (t[0] == '+' || t[0] == '-') then
      var u := t[1..];
      var v: int := DigitsValue(u);
      if DigitGroups(u) then Some(if t[0] == '-' then -v else v) else None
    else if DigitGroups(t) then Some(DigitsValue(t))
    else None
  }

  function DigitChar(d: nat): char
    requires d < 10
  {
    ('0' as int + d) as char
  }

  /** `str(n)` for a non-negative `n` */
  function NatToString(n: nat): (s: string)
    ensures |s| > 0
  {
    if n < 10 then [DigitChar(n)] else NatToString(n / 10) + [DigitChar(n % 10)]
  }

  /** `str(n)` */
  function IntToString(n: int): string {
    if n < 0 then "-" + NatToString(-n) else NatToString(n)
  }

  predicate AllDigits(s: string) {
    forall i :: 0 <= i < |s| ==> IsDigit(s[i])
  }

  lemma {:induction false} NatToStringDigits(n: nat)
    ensures AllDigits(NatToString(n))
    ensures DigitsValue(NatToString(n)) == n
    decreases n
  {
    var s := NatToString(n);
    if n >= 10 {
      NatToStringDigits(n / 10);
      assert s[..|s| - 1] == NatToString(n / 10);
    }
  }

  lemma NumberStripUnpadded(s: string)
    requires s != [] && !IsNumberSpace(s[0]) && !IsNumberSpace(s[|s| - 1])
    ensures NumberStrip(s) == s
  {
    assert NumberStripLeft(s) == s;
  }

  lemma {:induction false} AllDigitsMoreGroups(v: string)
    requires AllDigits(v)
    ensures MoreGroups(v)
    decreases |v|
  {
    if v != [] {
      AllDigitsMoreGroups(v[1..]);
    }
  }

  lemma AllDigitsGroups(d: string)
    requires |d| > 0 && AllDigits(d)
    ensures DigitGroups(d)
  {
    AllDigitsMoreGroups(d[1..]);
  }

  lemma {:induction false} MoreGroupsChars(v: string)
    requires MoreGroups(v)
    ensures forall i :: 0 <= i < |v| ==> IsDigit(v[i]) || v[i] == '_'
    decreases |v|
  {
    if v == [] {
    } else if IsDigit(v[0]) && MoreGroups(v[1..]) {
      MoreGroupsChars(v[1..]);
    } else {
      MoreGroupsChars(v[2..]);
    }
  }

  lemma DigitGroupsChars(u: string)
    requires DigitGroups(u)
    ensures forall i :: 0 <= i < |u| ==> IsDigit(u[i]) || u[i] == '_'
  {
    MoreGroupsChars(u[1..]);
  }

  /** A run of digits reads back as the number it spells. */
  lemma ParseIntOfDigits(d: string)
    requires |d| > 0 && AllDigits(d)
    ensures ParseInt(d) == Some(DigitsValue(d) as int)
  {
    AllDigitsGroups(d);
    NumberStripUnpadded(d);
    assert IsDigit(d[0]);
  }

  /** A minus sign and a run of digits read back as the negated number. */
  lemma ParseIntOfNegativeDigits(d: string)
    requires |d| > 0 && AllDigits(d)
    ensures ParseInt("-" + d) == Some(-(DigitsValue(d) as int))
  {
    AllDigitsGroups(d);
    var s := "-" + d;
    NumberStripUnpadded(s);
    assert s[0] == '-' && s[1..] == d;
  }

  /** `int(str(n)) == n` for every integer. */
  lemma ParseIntOfIntToString(n: int)
    ensures ParseInt(IntToString(n)) == Some(n)
  {
    var m: nat := if n < 0 then -n else n;
    NatToStringDigits(m);
    if n < 0 {
      ParseIntOfNegativeDigits(NatToString(m));
    } else {
      ParseIntOfDigits(NatToString(m));
    }
  }

  /** Whatever `int()` accepts is, once stripped, made only of a sign,
      digits and underscores, and holds at least one digit: so `"-"`,
      `"1,000"` and `"123.45"` are rejected. */
  lemma ParseIntShape(s: string)
    requires ParseInt(s).Some?
    ensures var t := NumberStrip(s);
      && (exists i :: 0 <= i < |t| && IsDigit(t[i]))
      && forall i :: 0 <= i < |t| ==> IsDigit(t[i]) || t[i] == '+' || t[i] == '-' || t[i] == '_'
  {
    var t := NumberStrip(s);
    if |t| > 0 && (t[0] == '+' || t[0] == '-') {
      var u := t[1..];
      DigitGroupsChars(u);
      assert IsDigit(t[1]);
      forall i | 1 <= i < |t| ensures IsDigit(t[i]) || t[i] == '_' {
        assert t[i] == u[i - 1];
      }
    } else {
      DigitGroupsChars(t);
    }
  }

  /** A character that is neither a digit nor an underscore ends the digit
      groups. */
  lemma {:induction false} StrayCharBreaksGroups(v: string, i: nat)
    requires i < |v| && !IsDigit(v[i]) && v[i] != '_'
    ensures !MoreGroups(v)
    decreases i
  {
    if i == 0 {
    } else if IsDigit(v[0]) {
      StrayCharBreaksGroups(v[1..], i - 1);
    } else if v[0] == '_' && i >= 2 {
      StrayCharBreaksGroups(v[2..], i - 2);
    }
  }

  /** `int()` rejects a string whose stripped text holds a character other
      than a digit, an underscore or a sign... */
  lemma ParseIntRejectsChar(s: string, i: nat)
    requires var t := NumberStrip(s); i < |t| && !IsDigit(t[i]) && t[i] != '+' && t[i] != '-' && t[i] != '_'
    ensures ParseInt(s).None?
  {
    var t := NumberStrip(s);
    if |t| > 0 && (t[0] == '+' || t[0] == '-') {
      var u := t[1..];
      if i >= 2 {
        StrayCharBreaksGroups(u[1..], i - 2);
      }
    } else if i >= 1 {
      StrayCharBreaksGroups(t[1..], i - 1);
    }
  }

  /** ... or no digit at all. */
  lemma ParseIntRejectsNoDigit(s: string)
    requires var t := NumberStrip(s); forall i :: 0 <= i < |t| ==> !IsDigit(t[i])
    ensures ParseInt(s).None?
  {
    var t := NumberStrip(s);
    if |t| > 0 && (t[0] == '+' || t[0] == '-') {
      var u := t[1..];
      if |u| > 0 {
        assert u[0] == t[1];
      }
      assert !DigitGroups(u);
    } else {
      assert !DigitGroups(t);
    }
  }
}
