/** Code normalisation and the lookups built on it: the index-quote search
    and the gainers/losers selector. */
module Lookup {
  import opened Base
  import opened PyStr
  import opened Values

  /** `' '.join(code.upper().split())`: upper-case, then collapse every run
      of whitespace to one space and drop it at both ends. */
  function NormalizeCode(code: string): string {
    Join(Words(Upper(code)), " ")
  }

  /** Every character of `s` is left alone by upper-casing. */
  predicate UpperFixed(s: string) {
    forall i :: 0 <= i < |s| ==> UpperChar(s[i]) == s[i]
  }

  predicate AllUpperFixed(ws: seq<string>) {
    |ws| == 0 || (UpperFixed(ws[0]) && AllUpperFixed(ws[1..]))
  }

  lemma UpperIsUpperFixed(s: string)
    ensures UpperFixed(Upper(s))
  {
  }

  lemma UpperOfUpperFixed(s: string)
    requires UpperFixed(s)
    ensures Upper(s) == s
  {
  }

  lemma UpperFixedSlice(s: string, i: nat, j: nat)
    requires UpperFixed(s) && i <= j <= |s|
    ensures UpperFixed(s[i..j])
  {
    assert forall k :: 0 <= k < j - i ==> s[i..j][k] == s[i + k];
  }

  lemma {:induction false} WordsUpperFixed(s: string)
    requires UpperFixed(s)
    ensures AllUpperFixed(Words(s))
    decreases |s|
  {
    var t := StripLeft(s);
    if t != [] {
      var n := WordLength(t);
      UpperFixedSlice(s, |s| - |t|, |s|);
      UpperFixedSlice(t, 0, n);
      UpperFixedSlice(t, n, |t|);
      assert t[0..n] == t[..n] && t[n..|t|] == t[n..];
      WordsUpperFixed(t[n..]);
      var rest := Words(t[n..]);
      assert Words(s) == [t[..n]] + rest;
      assert ([t[..n]] + rest)[1..] == rest;
    }
  }

  lemma {:induction false} JoinUpperFixed(ws: seq<string>)
    requires AllUpperFixed(ws)
    ensures UpperFixed(Join(ws, " "))
    decreases |ws|
  {
    if |ws| > 1 {
      assert UpperFixed(ws[0]);
      JoinUpperFixed(ws[1..]);
      var rest := Join(ws[1..], " ");
      var j := Join(ws, " ");
      assert j == ws[0] + " " + rest;
      forall i | 0 <= i < |j| ensures UpperChar(j[i]) == j[i] {
        if i < |ws[0]| {
          assert j[i] == ws[0][i];
        } else if i > |ws[0]| {
          assert j[i] == rest[i - |ws[0]| - 1];
        }
      }
    }
  }

  /** A normalised code has no whitespace but single spaces, each between
      two other characters: no leading, trailing or repeated whitespace. */
  lemma NormalizedShape(code: string)
    ensures var r := NormalizeCode(code);
      forall i :: 0 <= i < |r| && IsSpace(r[i]) ==>
        r[i] == ' ' && 0 < i < |r| - 1 && !IsSpace(r[i - 1]) && !IsSpace(r[i + 1])
    ensures Words(NormalizeCode(code)) == Words(Upper(code))
  {
    JoinShape(Words(Upper(code)));
    WordsOfJoin(Words(Upper(code)));
  }

  /** Normalising a normalised code changes nothing. */
  lemma NormalizeIdempotent(code: string)
    ensures NormalizeCode(NormalizeCode(code)) == NormalizeCode(code)
  {
    var ws := Words(Upper(code));
    var r := Join(ws, " ");
    UpperIsUpperFixed(code);
    WordsUpperFixed(Upper(code));
    JoinUpperFixed(ws);
    UpperOfUpperFixed(r);
    WordsOfJoin(ws);
  }

  /** The case of the code does not matter. */
  lemma NormalizeIgnoresCase(code: string)
    ensures NormalizeCode(Upper(code)) == NormalizeCode(code)
  {
    UpperIsUpperFixed(code);
    UpperOfUpperFixed(Upper(code));
  }

  /** Whitespace before or after the code does not matter. */
  lemma NormalizeIgnoresOuterSpace(code: string, c: char)
    requires IsSpace(c)
    ensures NormalizeCode([c] + code) == NormalizeCode(code)
    ensures NormalizeCode(code + [c]) == NormalizeCode(code)
  {
    UpperOfSpace(c);
    UpperAppend([c], code);
    WordsAfterSpace(c, Upper(code));
    UpperAppend(code, [c]);
    WordsBeforeSpace(Upper(code), c);
  }

  lemma UpperOfSpace(c: char)
    requires IsSpace(c)
    ensures Upper([c]) == [c]
  {
    assert UpperChar(c) == c;
  }

  lemma UpperAppend(a: string, b: string)
    ensures Upper(a + b) == Upper(a) + Upper(b)
  {
  }

  /** `"nifty 50".upper()` is `"NIFTY 50"`. */
  lemma UpperNiftyFifty(lower: string, upper: string)
    requires lower == "nifty 50" && upper == "NIFTY 50"
    ensures Upper(lower) == upper
  {
    assert Upper(lower)[0] == 'N';
    assert Upper(lower)[1] == 'I';
    assert Upper(lower)[2] == 'F';
    assert Upper(lower)[3] == 'T';
    assert Upper(lower)[4] == 'Y';
  }

  lemma NiftyFiftyWellFormed(ws: seq<string>)
    requires ws == ["NIFTY", "50"]
    ensures WellFormedWords(ws)
  {
    assert ws[1..] == ["50"] && ws[1..][1..] == [];
    assert NoSpace(ws[0]) && NoSpace(ws[1]);
  }

  /** `"NIFTY 50".split()` is `["NIFTY", "50"]`. */
  lemma NiftyFiftyWords(upper: string, ws: seq<string>)
    requires upper == "NIFTY 50" && ws == ["NIFTY", "50"]
    ensures Join(ws, " ") == upper
    ensures Words(upper) == ws
  {
    NiftyFiftyWellFormed(ws);
    assert Join(ws, " ") == ws[0] + " " + ws[1];
    WordsOfJoin(ws);
  }

  /** `"NIFTY 50 "` and the default `"nifty 50"` both name the index
      `"NIFTY 50"`. */
  lemma NiftyFiftyExample(padded: string, lower: string)
    requires padded == "NIFTY 50 " && lower == "nifty 50"
    ensures NormalizeCode(lower) == "NIFTY 50"
    ensures NormalizeCode(padded) == "NIFTY 50"
  {
    var upper := padded[..|padded| - 1];
    assert padded == upper + [' '];
    UpperNiftyFifty(lower, upper);
    NiftyFiftyWords(upper, ["NIFTY", "50"]);
    NormalizeIgnoresOuterSpace(upper, ' ');
    NormalizeIgnoresCase(lower);
  }

  const IndexSymbolKey := "indexSymbol"

  /** `[i['indexSymbol'] for i in all_index_quote]`: the symbols in order,
      or the KeyError of the first record without one. */
  function IndexSymbols(quotes: seq<Record>): (r: Result<seq<Value>>)
    ensures r.Ok? <==> forall i :: 0 <= i < |quotes| ==> IndexSymbolKey in quotes[i]
    ensures r.Ok? ==> |r.value| == |quotes|
    ensures r.Ok? ==> forall i :: 0 <= i < |quotes| ==> r.value[i] == quotes[i][IndexSymbolKey]
    ensures r.Err? ==> r.error == KeyMissing(IndexSymbolKey)
  {
    if quotes == [] then Ok([])
    else if IndexSymbolKey !in quotes[0] then Err(KeyMissing(IndexSymbolKey))
    else
      match IndexSymbols(quotes[1..])
      case Err(e) => Err(e)
      case Ok(rest) => Ok([quotes[0][IndexSymbolKey]] + rest)
  }

  /** Position of the first occurrence of `x` in `s`. */
  function FirstIndex(s: seq<Value>, x: Value): (i: nat)
    requires x in s
    ensures i < |s| && s[i] == x && x !in s[..i]
  {
    if s[0] == x then 0
    else
      var j := FirstIndex(s[1..], x);
      assert s[..j + 1] == [s[0]] + s[1..][..j];
      j + 1
  }

  /** `get_index_quote` on the list the server returned: the coerced first
      record whose symbol is the normalised code; "Wrong index code" when
      there is none. */
  function IndexQuote(quotes: seq<Record>, code: string, parseFloat: FloatParser): Result<Record> {
    match IndexSymbols(quotes)
    case Err(e) => Err(e)
    case Ok(symbols) =>
      var wanted := VStr(NormalizeCode(code));
      if wanted in symbols then Ok(CastRecord(quotes[FirstIndex(symbols, wanted)], parseFloat))
      else Err(WrongIndexCode)
  }

  predicate HasSymbol(q: Record, symbol: string) {
    IndexSymbolKey in q && q[IndexSymbolKey] == VStr(symbol)
  }

  /** The index-quote lookup, from the caller's side: a record without a
      symbol is a KeyError; otherwise the result is the coerced first record
      whose symbol is the normalised code, and "Wrong index code" exactly
      when no record has it. */
  lemma IndexQuoteSpec(quotes: seq<Record>, code: string, parseFloat: FloatParser)
    ensures var r := IndexQuote(quotes, code, parseFloat);
      r == Err(KeyMissing(IndexSymbolKey)) <==> exists i :: 0 <= i < |quotes| && IndexSymbolKey !in quotes[i]
    ensures var r := IndexQuote(quotes, code, parseFloat);
      r == Err(WrongIndexCode) <==>
        && (forall i :: 0 <= i < |quotes| ==> IndexSymbolKey in quotes[i])
        && (forall i :: 0 <= i < |quotes| ==> !HasSymbol(quotes[i], NormalizeCode(code)))
    ensures var r := IndexQuote(quotes, code, parseFloat);
      r.Ok? ==> exists i :: 0 <= i < |quotes| && HasSymbol(quotes[i], NormalizeCode(code))
                  && (forall j :: 0 <= j < i ==> !HasSymbol(quotes[j], NormalizeCode(code)))
                  && r.value == CastRecord(quotes[i], parseFloat)
    ensures var r := IndexQuote(quotes, code, parseFloat);
      ((forall i :: 0 <= i < |quotes| ==> IndexSymbolKey in quotes[i])
       && (exists i :: 0 <= i < |quotes| && HasSymbol(quotes[i], NormalizeCode(code))))
      ==> r.Ok?
  {
    var r := IndexQuote(quotes, code, parseFloat);
    var wanted := VStr(NormalizeCode(code));
    var symbols := IndexSymbols(quotes);
    if symbols.Ok? {
      var s := symbols.value;
      if wanted in s {
        var i := FirstIndex(s, wanted);
        forall j | 0 <= j < i ensures !HasSymbol(quotes[j], NormalizeCode(code)) {
          assert s[..i][j] == s[j];
        }
      } else {
        forall i | 0 <= i < |quotes| ensures !HasSymbol(quotes[i], NormalizeCode(code)) {
          assert s[i] == quotes[i][IndexSymbolKey];
        }
      }
    }
  }

  /** `get_top_gainers` / `get_top_losers` on the decoded payload: without
      an index, the whole payload coerced; with one, the `data` entry of that
      index's object, not coerced. */
  function SelectMovers(payload: Record, index: Option<string>, parseFloat: FloatParser): Result<Value> {
    match index
    case None => Ok(VDict(CastRecord(payload, parseFloat)))
    case Some(ix) =>
      if ix !in payload then Err(KeyMissing(ix))
      else
        match payload[ix]
        case VDict(m) => if "data" in m then Ok(m["data"]) else Err(KeyMissing("data"))
        case _ => Err(NotSubscriptable)
  }

  /** The selector, from the caller's side: it fails only on a missing index
      or `data` key or a non-object entry, and the list it returns is the
      server's own, strings included. */
  lemma SelectMoversSpec(payload: Record, index: string, parseFloat: FloatParser)
    ensures var r := SelectMovers(payload, Some(index), parseFloat);
      r.Ok? <==> index in payload && payload[index].VDict? && "data" in payload[index].fields
    ensures var r := SelectMovers(payload, Some(index), parseFloat);
      r.Ok? ==> r.value == payload[index].fields["data"]
    ensures SelectMovers(payload, None, parseFloat) == Ok(VDict(CastRecord(payload, parseFloat)))
    ensures var r := SelectMovers(payload, None, parseFloat);
      r.Ok? && r.value.VDict? && r.value.fields.Keys == payload.Keys
  {
  }
}
