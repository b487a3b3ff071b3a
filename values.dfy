/** Decoded JSON values and the string-to-number coercion of records
    (`cast_intfloat_string_values_to_intfloat`). */
module Values {
  import opened Base
  import opened PyStr
  import opened PyInt

  /** A Python float, kept as its IEEE-754 binary64 bit pattern; its numeric
      meaning plays no part in the model. */
  datatype Float = Float(bits: bv64)

  /** A decoded JSON value with its Python type: `None`, `bool`, `int`,
      `float`, `str`, `list` or `dict`. */
  datatype Value =
    | VNone
    | VBool(b: bool)
    | VInt(i: int)
    | VFloat(f: Float)
    | VStr(s: string)
    | VList(items: seq<Value>)
    | VDict(fields: map<string, Value>)

  /** A flat JSON object as a Python `dict`. */
  type Record = map<string, Value>

  /** Python's `float()` on a string: the float it denotes, or `None` where
      it raises ValueError. */
  type FloatParser = string -> Option<Float>

  /** A character that may be a decimal digit to `float()`: an ASCII digit,
      or any non-ASCII character, since `float()` also reads the other
      Unicode decimal digits (`float('\u0661') == 1.0`). */
  predicate DigitLike(c: char) {
    IsDigit(c) || c > '\U{7F}'
  }

  predicate MayHaveDigit(t: string) {
    exists i :: 0 <= i < |t| && DigitLike(t[i])
  }

  /** The words `float()` accepts besides numerals, once lower-cased and
      stripped of one sign. */
  predicate SpecialFloatWord(t: string) {
    var w := if |t| > 0 && (t[0] == '+' || t[0] == '-') then t[1..] else t;
    CaseFold(w) in {"inf", "infinity", "nan"}
  }

  /** A necessary condition for `float(s)` to succeed: the stripped text is
      either a numeral (digits, at least one, with signs, a point, an
      exponent mark and underscores) or one of the special words. Any
      non-ASCII character counts as a possible digit. */
  predicate MayBeFloatLiteral(s: string) {
    MayBeFloatText(NumberStrip(s))
  }

  predicate MayBeFloatText(t: string) {
    || (MayHaveDigit(t) && forall i :: 0 <= i < |t| ==> NumeralChar(t[i]))
    || SpecialFloatWord(t)
  }

  predicate NumeralChar(c: char) {
    DigitLike(c) || c == '+' || c == '-' || c == '.' || c == '_' || c == 'e' || c == 'E'
  }

  /** What the model assumes of the float parser: it accepts nothing that
      cannot be a Python float literal. */
  ghost predicate SoundFloatParser(parseFloat: FloatParser) {
    forall s :: parseFloat(s).Some? ==> MayBeFloatLiteral(s)
  }

  /** One value after coercion: a string becomes an int if `int()` accepts
      it, else a float if `float()` accepts it, else stays as it is; a value
      of any other type is untouched. */
  function CastValue(v: Value, parseFloat: FloatParser): Value {
    match v
    case VStr(s) =>
      (match ParseInt(s)
       case Some(n) => VInt(n)
       case None =>
         match parseFloat(s)
         case Some(f) => VFloat(f)
         case None => v)
    case _ => v
  }

  /** The coerced copy of a record: the same keys, each value coerced. */
  function CastRecord(d: Record, parseFloat: FloatParser): Record {
    map k | k in d :: CastValue(d[k], parseFloat)
  }

  /** The body of the coercion loop for one value: the `try int()`, then
      `try float()`, else keep, applied only to a string. */
  method CastOneValue(v: Value, parseFloat: FloatParser) returns (r: Value)
    ensures r == CastValue(v, parseFloat)
  {
    r := v;
    if v.VStr? {
      var asInt := ParseInt(v.s);
      if asInt.Some? {
        r := VInt(asInt.value);
      } else {
        var asFloat := parseFloat(v.s);
        if asFloat.Some? {
          r := VFloat(asFloat.value);
        }
      }
    }
  }

  /** The coercion loop: copy the record, then overwrite each key of the
      copy with its coerced value. The argument is a value, so the caller's
      record is untouched. */
  method CastIntFloatStringValues(d: Record, parseFloat: FloatParser) returns (r: Record)
    ensures r == CastRecord(d, parseFloat)
  {
    r := d;
    var todo := d.Keys;
    while todo != {}
      invariant todo <= d.Keys == r.Keys
      invariant forall k :: k in todo ==> r[k] == d[k]
      invariant forall k :: k in d && k !in todo ==> r[k] == CastValue(d[k], parseFloat)
      decreases todo
    {
      var k :| k in todo;
      var v := CastOneValue(r[k], parseFloat);
      r := r[k := v];
      todo := todo - {k};
    }
  }

  /** The keep-or-convert rule, key by key: the copy has exactly the keys of
      the record; a value changes only if it was a string; a string that
      `int()` accepts becomes that int, one that only `float()` accepts
      becomes that float, and a string both reject is kept verbatim. */
  lemma CastRule(d: Record, parseFloat: FloatParser, k: string)
    requires k in d
    ensures CastRecord(d, parseFloat).Keys == d.Keys
    ensures !d[k].VStr? ==> CastRecord(d, parseFloat)[k] == d[k]
    ensures d[k].VStr? && ParseInt(d[k].s).Some? ==>
              CastRecord(d, parseFloat)[k] == VInt(ParseInt(d[k].s).value)
    ensures d[k].VStr? && ParseInt(d[k].s).None? && parseFloat(d[k].s).Some? ==>
              CastRecord(d, parseFloat)[k] == VFloat(parseFloat(d[k].s).value)
    ensures d[k].VStr? ==>
              (CastRecord(d, parseFloat)[k] == d[k] <==> ParseInt(d[k].s).None? && parseFloat(d[k].s).None?)
  {
  }

  /** Coercing twice gives what coercing once gives: converted values are no
      longer strings, and a kept string fails both parsers again. */
  lemma CastIdempotent(d: Record, parseFloat: FloatParser)
    ensures CastRecord(CastRecord(d, parseFloat), parseFloat) == CastRecord(d, parseFloat)
  {
  }

  /** A character that folds to itself survives case folding. */
  lemma {:induction false} FoldKeeps(w: string, c: char)
    requires c in w && FoldChar(c) == [c]
    ensures c in CaseFold(w)
    decreases |w|
  {
    if w[0] == c {
      assert CaseFold(w)[0] == c;
    } else {
      assert c in w[1..];
      FoldKeeps(w[1..], c);
      assert CaseFold(w) == FoldChar(w[0]) + CaseFold(w[1..]);
    }
  }

  /** `int()` rejects a string that, once stripped, holds a comma, or holds
      neither an ASCII digit nor any non-ASCII character. */
  lemma IntRejects(s: string)
    requires var t := NumberStrip(s); ',' in t || !MayHaveDigit(t)
    ensures ParseInt(s).None?
  {
    var t := NumberStrip(s);
    if ',' in t {
      var i :| 0 <= i < |t| && t[i] == ',';
      ParseIntRejectsChar(s, i);
    } else {
      ParseIntRejectsNoDigit(s);
    }
  }

  /** None of the special float words holds a comma. */
  lemma CommaIsNoSpecialWord(t: string)
    requires ',' in t
    ensures !SpecialFloatWord(t)
  {
    var w := if |t| > 0 && (t[0] == '+' || t[0] == '-') then t[1..] else t;
    assert ',' in w;
    FoldKeeps(w, ',');
  }

  /** A string that, once stripped, holds a comma, or holds no ASCII digit,
      no non-ASCII character and none of the special float words, is neither
      an int nor a float literal, so coercion keeps it verbatim. */
  lemma StaysString(s: string, parseFloat: FloatParser)
    requires SoundFloatParser(parseFloat)
    requires var t := NumberStrip(s); ',' in t || (!MayHaveDigit(t) && !SpecialFloatWord(t))
    ensures CastValue(VStr(s), parseFloat) == VStr(s)
  {
    IntRejects(s);
    NoFloatLiteral(s);
  }

  /** The same condition rules out a float literal. */
  lemma NoFloatLiteral(s: string)
    requires var t := NumberStrip(s); ',' in t || (!MayHaveDigit(t) && !SpecialFloatWord(t))
    ensures !MayBeFloatLiteral(s)
  {
    NoFloatText(NumberStrip(s));
  }

  lemma NoFloatText(t: string)
    requires ',' in t || (!MayHaveDigit(t) && !SpecialFloatWord(t))
    ensures !MayBeFloatText(t)
  {
    if ',' in t {
      CommaIsNoSpecialWord(t);
      var i :| 0 <= i < |t| && t[i] == ',';
      assert !NumeralChar(t[i]);
    }
  }

  /** A digit of another script, such as ARABIC-INDIC DIGIT ONE, is left
      open: a sound float parser may accept it, as Python's does. */
  lemma OtherScriptDigitMayBeFloat(s: string)
    requires s == "\U{0661}"
    ensures MayBeFloatLiteral(s)
  {
    NumberStripUnpadded(s);
    assert DigitLike(s[0]) && NumeralChar(s[0]);
  }

  /** An information separator is no blank to `int()` or `float()`: with
      U+001C in front, `"5"` is no number and stays a string, although
      `str.strip()` removes the separator. */
  lemma SeparatorStaysString(s: string, parseFloat: FloatParser)
    requires SoundFloatParser(parseFloat)
    requires s == "\U{1C}5"
    ensures Strip(s) == "5"
    ensures CastValue(VStr(s), parseFloat) == VStr(s)
  {
    SeparatorIsSpace(s);
    SeparatorNoNumber(s);
  }

  lemma SeparatorIsSpace(s: string)
    requires s == "\U{1C}5"
    ensures Strip(s) == "5"
  {
    assert IsSpace(s[0]) && !IsSpace(s[1]);
    assert StripLeft(s) == StripLeft(s[1..]) == s[1..];
    StripRightKeeps(s[1..]);
  }

  lemma SeparatorNoNumber(s: string)
    requires s == "\U{1C}5"
    ensures ParseInt(s).None? && !MayBeFloatLiteral(s)
  {
    NumberStripUnpadded(s);
    ParseIntRejectsChar(s, 0);
    assert !NumeralChar(s[0]);
    FoldKeeps(s, s[0]);
  }

  /** The provider's "no data" dash and comma-grouped numbers such as
      `"1,000"` stay strings under any sound float parser. */
  lemma SentinelsStayStrings(s: string, parseFloat: FloatParser)
    requires SoundFloatParser(parseFloat)
    requires s == "-" || s == "1,000"
    ensures CastValue(VStr(s), parseFloat) == VStr(s)
  {
    if s == "-" {
      DashStaysString(s, parseFloat);
    } else {
      GroupedNumberStaysString(s, parseFloat);
    }
  }

  lemma DashStaysString(s: string, parseFloat: FloatParser)
    requires SoundFloatParser(parseFloat)
    requires s == "-"
    ensures CastValue(VStr(s), parseFloat) == VStr(s)
  {
    NumberStripUnpadded(s);
    assert s[1..] == [];
    assert !MayHaveDigit(s) && !SpecialFloatWord(s);
    StaysString(s, parseFloat);
  }

  lemma GroupedNumberStaysString(s: string, parseFloat: FloatParser)
    requires SoundFloatParser(parseFloat)
    requires s == "1,000"
    ensures CastValue(VStr(s), parseFloat) == VStr(s)
  {
    NumberStripUnpadded(s);
    assert s[1] == ',';
    StaysString(s, parseFloat);
  }
}
