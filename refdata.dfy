/** Reading the reference-data CSV bodies (stock codes, derivative lot
    sizes) into a dictionary, line by line. */
module RefData {
  import opened Base
  import opened PyStr
  import opened PyInt
  import opened Values

  /** What one line of the body does to the dictionary being filled. */
  datatype LineOutcome = Skip | Entry(key: string, value: Value) | Fail(error: Error)

  /** The body of a CSV loop, applied to one line. */
  type LineRule = string -> LineOutcome

  /** `body.split('\n')` */
  function Lines(body: string): seq<string> {
    Split(body, '\n')
  }

  /** `line.split(',')` */
  function Fields(line: string): seq<string> {
    Split(line, ',')
  }

  /** The loop body of `get_stock_codes`: a non-empty line holding a comma
      maps its first field to its second; any other line is skipped. */
  function StockCodeLine(line: string): LineOutcome {
    if line != "" && ',' in line then
      var f := Fields(line);
      Entry(f[0], VStr(f[1]))
    else Skip
  }

  /** The header test of `get_fno_lot_sizes`: the case-folded line holds
      the word `symbol`. */
  predicate IsHeaderLine(line: string) {
    Find(CaseFold(line), "symbol") != -1
  }

  /** The loop body of `get_fno_lot_sizes`: an empty line, a line without a
      comma and a header line are skipped; otherwise the stripped second
      field maps to the int the stripped third field spells. A line with only
      two fields cannot be unpacked, and a third field that is not an int
      fails; both raise. */
  function LotSizeLine(line: string): LineOutcome {
    if line != "" && ',' in line && !IsHeaderLine(line) then
      var f := Fields(line);
      if |f| < 3 then Fail(NotEnoughValues(|f| - 1))
      else
        var code, size := Strip(f[1]), Strip(f[2]);
        match ParseInt(size)
        case Some(n) => Entry(code, VInt(n))
        case None => Fail(NotAnInt(size))
    else Skip
  }

  /** The dictionary the loop has built after `lines`, or the exception it
      raised on the way. */
  function BuildDict(lines: seq<string>, rule: LineRule): Result<map<string, Value>>
    decreases |lines|
  {
    if lines == [] then Ok(map[])
    else
      match BuildDict(lines[..|lines| - 1], rule)
      case Err(e) => Err(e)
      case Ok(m) =>
        match rule(lines[|lines| - 1])
        case Skip => Ok(m)
        case Entry(k, v) => Ok(m[k := v])
        case Fail(e) => Err(e)
  }

  /** Once the loop has raised, later lines do not matter. */
  lemma {:induction false} FailureSticks(lines: seq<string>, rule: LineRule, i: nat)
    requires i <= |lines| && BuildDict(lines[..i], rule).Err?
    ensures BuildDict(lines, rule) == BuildDict(lines[..i], rule)
    decreases |lines|
  {
    if i == |lines| {
      assert lines[..i] == lines;
    } else {
      var init := lines[..|lines| - 1];
      assert init[..i] == lines[..i];
      FailureSticks(init, rule, i);
    }
  }

  /** The CSV loop: fill `res_dict` line by line with what the rule says,
      stopping at the first line that raises. */
  method FillDict(lines: seq<string>, rule: LineRule) returns (r: Result<map<string, Value>>)
    ensures r == BuildDict(lines, rule)
  {
    var dict := map[];
    for i := 0 to |lines|
      invariant BuildDict(lines[..i], rule) == Ok(dict)
    {
      assert lines[..i + 1][..i] == lines[..i];
      match rule(lines[i]) {
        case Skip =>
        case Entry(k, v) =>
          dict := dict[k := v];
        case Fail(e) =>
          FailureSticks(lines, rule, i + 1);
          return Err(e);
      }
    }
    assert lines[..|lines|] == lines;
    return Ok(dict);
  }

  /** The loop finishes exactly when no line raises. */
  lemma {:induction false} BuildDictOk(lines: seq<string>, rule: LineRule)
    ensures BuildDict(lines, rule).Ok? <==> forall i :: 0 <= i < |lines| ==> !rule(lines[i]).Fail?
    decreases |lines|
  {
    if lines != [] {
      var init := lines[..|lines| - 1];
      BuildDictOk(init, rule);
      assert forall i :: 0 <= i < |init| ==> init[i] == lines[i];
    }
  }

  /** When the loop raises, it raises the error of the first failing line. */
  lemma {:induction false} BuildDictFirstFailure(lines: seq<string>, rule: LineRule, e: Error)
    requires BuildDict(lines, rule) == Err(e)
    ensures exists i :: 0 <= i < |lines| && rule(lines[i]) == Fail(e)
                          && forall j :: 0 <= j < i ==> !rule(lines[j]).Fail?
    decreases |lines|
  {
    var init := lines[..|lines| - 1];
    var last := |lines| - 1;
    assert forall i :: 0 <= i < |init| ==> init[i] == lines[i];
    if BuildDict(init, rule).Err? {
      BuildDictFirstFailure(init, rule, e);
    } else {
      BuildDictOk(init, rule);
      assert rule(lines[last]) == Fail(e);
    }
  }

  /** Line `i` is the last one that writes key `k`. */
  predicate LastWriter(lines: seq<string>, rule: LineRule, k: string, i: int) {
    && 0 <= i < |lines|
    && rule(lines[i]).Entry? && rule(lines[i]).key == k
    && forall j :: i < j < |lines| ==> !(rule(lines[j]).Entry? && rule(lines[j]).key == k)
  }

  /** The finished dictionary has a key for every line that writes one. */
  lemma {:induction false} BuildDictKeys(lines: seq<string>, rule: LineRule, m: map<string, Value>)
    requires BuildDict(lines, rule) == Ok(m)
    ensures forall i :: 0 <= i < |lines| && rule(lines[i]).Entry? ==> rule(lines[i]).key in m
    decreases |lines|
  {
    if lines != [] {
      var init := lines[..|lines| - 1];
      var m0 := BuildDict(init, rule).value;
      BuildDictKeys(init, rule, m0);
      forall i | 0 <= i < |lines| && rule(lines[i]).Entry? ensures rule(lines[i]).key in m {
        if i < |init| {
          assert init[i] == lines[i];
        }
      }
    }
  }

  /** Each key of the finished dictionary holds the value of the last line
      that writes it: later lines overwrite earlier ones. */
  lemma {:induction false} BuildDictLastWriter(lines: seq<string>, rule: LineRule, m: map<string, Value>)
    requires BuildDict(lines, rule) == Ok(m)
    ensures forall k :: k in m ==> exists i :: LastWriter(lines, rule, k, i) && rule(lines[i]).value == m[k]
    decreases |lines|
  {
    if lines != [] {
      var init := lines[..|lines| - 1];
      var last := |lines| - 1;
      var m0 := BuildDict(init, rule).value;
      BuildDictLastWriter(init, rule, m0);
      var o := rule(lines[last]);
      forall k | k in m ensures exists i :: LastWriter(lines, rule, k, i) && rule(lines[i]).value == m[k] {
        if o.Entry? && o.key == k {
          assert LastWriter(lines, rule, k, last);
        } else {
          assert k in m0 && m[k] == m0[k];
          var i :| LastWriter(init, rule, k, i) && rule(init[i]).value == m0[k];
          LastWriterExtends(lines, rule, k, i);
        }
      }
    }
  }

  /** A last writer of all but the final line stays the last writer when
      the final line does not write its key. */
  lemma LastWriterExtends(lines: seq<string>, rule: LineRule, k: string, i: int)
    requires |lines| > 0 && LastWriter(lines[..|lines| - 1], rule, k, i)
    requires var o := rule(lines[|lines| - 1]); !(o.Entry? && o.key == k)
    ensures LastWriter(lines, rule, k, i)
  {
    var init := lines[..|lines| - 1];
    assert init[i] == lines[i];
    forall j | i < j < |lines| ensures !(rule(lines[j]).Entry? && rule(lines[j]).key == k) {
      if j < |init| {
        assert init[j] == lines[j];
      }
    }
  }

  /** Reading the stock-code list never raises. */
  lemma StockCodesNeverFail(lines: seq<string>)
    ensures BuildDict(lines, StockCodeLine).Ok?
  {
    BuildDictOk(lines, StockCodeLine);
  }

  /** A stock-code line is read as `code,name` followed by nothing or by
      `,` and further fields: the code and the name hold no comma. */
  lemma StockCodeLineLayout(line: string)
    ensures StockCodeLine(line).Entry? <==> line != "" && ',' in line
    ensures StockCodeLine(line).Entry? ==>
      var code, name := StockCodeLine(line).key, StockCodeLine(line).value.s;
      && StockCodeLine(line).value.VStr?
      && ',' !in code && ',' !in name
      && exists rest :: line == code + "," + name + rest && (rest == "" || rest[0] == ',')
  {
    if line != "" && ',' in line {
      var f := Fields(line);
      var rest := if |f| == 2 then "" else "," + Join(f[2..], ",");
      assert Join(f, ",") == f[0] + "," + Join(f[1..], ",");
      assert f[1..][1..] == f[2..];
      assert Join(f[1..], ",") == f[1] + rest;
      assert line == f[0] + "," + f[1] + rest;
    }
  }

  /** The four ways a lot-size line is read: skipped (empty, no comma, or a
      header line), unpacking fails (exactly one comma), the size is no int,
      or the stripped second field maps to the size. */
  lemma LotSizeLineCases(line: string)
    ensures LotSizeLine(line) == Skip <==> line == "" || ',' !in line || IsHeaderLine(line)
    ensures LotSizeLine(line).Fail? && LotSizeLine(line).error.NotEnoughValues? <==>
      line != "" && ',' in line && !IsHeaderLine(line) && |Fields(line)| == 2
    ensures LotSizeLine(line).Fail? && LotSizeLine(line).error.NotAnInt? <==>
      line != "" && ',' in line && !IsHeaderLine(line) && |Fields(line)| >= 3
      && ParseInt(Strip(Fields(line)[2])).None?
    ensures LotSizeLine(line).Entry? <==>
      line != "" && ',' in line && !IsHeaderLine(line) && |Fields(line)| >= 3
      && ParseInt(Strip(Fields(line)[2])).Some?
    ensures LotSizeLine(line).Fail? ==>
      LotSizeLine(line).error.NotEnoughValues? || LotSizeLine(line).error.NotAnInt?
    ensures LotSizeLine(line).Entry? ==>
      && |Fields(line)| >= 3
      && LotSizeLine(line).key == Strip(Fields(line)[1])
      && LotSizeLine(line).value == VInt(ParseInt(Strip(Fields(line)[2])).value)
  {
  }

  /** A header line is one whose case-folded text holds `symbol`. */
  lemma HeaderLineMeaning(line: string)
    ensures IsHeaderLine(line) ==> exists i: nat :: OccursAt(CaseFold(line), "symbol", i)
    ensures (exists i: nat :: OccursAt(CaseFold(line), "symbol", i)) ==> IsHeaderLine(line)
  {
    var r := Find(CaseFold(line), "symbol");
    if r != -1 {
      var i: nat := r;
      assert IsHeaderLine(line) && OccursAt(CaseFold(line), "symbol", i);
    }
  }
}
