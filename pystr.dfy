/** The parts of Python's `str` type that the client relies on. */
module PyStr {

  /** `c.isspace()`: the whitespace that `str.split()` and `str.strip()`
      skip. */
  predicate IsSpace(c: char) {
    || c == ' '
    || '\t' <= c <= '\r'
    || '\U{1C}' <= c <= '\U{1F}'
    || c == '\U{85}' || c == '\U{A0}' || c == '\U{1680}'
    || '\U{2000}' <= c <= '\U{200A}'
    || c == '\U{2028}' || c == '\U{2029}' || c == '\U{202F}' || c == '\U{205F}' || c == '\U{3000}'
  }

  predicate NoSpace(s: string) {
    forall i :: 0 <= i < |s| ==> !IsSpace(s[i])
  }

  /** `s.lstrip()`: the longest whitespace prefix is removed. */
  function StripLeft(s: string): (r: string)
    ensures |r| <= |s| && r == s[|s| - |r|..]
    ensures forall i :: 0 <= i < |s| - |r| ==> IsSpace(s[i])
    ensures r == [] || !IsSpace(r[0])
    decreases |s|
  {
    if |s| > 0 && IsSpace(s[0]) then StripLeft(s[1..]) else s
  }

  /** `s.rstrip()`: the longest whitespace suffix is removed. */
  function StripRight(s: string): (r: string)
    ensures |r| <= |s| && r == s[..|r|]
    ensures forall i :: |r| <= i < |s| ==> IsSpace(s[i])
    ensures r == [] || !IsSpace(r[|r| - 1])
    decreases |s|
  {
    if |s| > 0 && IsSpace(s[|s| - 1]) then StripRight(s[..|s| - 1]) else s
  }

  /** `s.strip()` */
  function Strip(s: string): string {
    StripRight(StripLeft(s))
  }

  /** A stripped string neither starts nor ends with whitespace, and
      stripping it again changes nothing. */
  lemma StripShape(s: string)
    ensures var r := Strip(s); r == [] || (!IsSpace(r[0]) && !IsSpace(r[|r| - 1]))
    ensures Strip(Strip(s)) == Strip(s)
  {
    var l := StripLeft(s);
    var r := StripRight(l);
    if r != [] {
      assert r[0] == l[0];
    }
    StripLeftKeeps(r);
    StripRightKeeps(r);
  }

  lemma StripLeftKeeps(s: string)
    requires s == [] || !IsSpace(s[0])
    ensures StripLeft(s) == s
  {
  }

  lemma StripRightKeeps(s: string)
    requires s == [] || !IsSpace(s[|s| - 1])
    ensures StripRight(s) == s
  {
  }

  /** Index of the first occurrence of `c` in `s`. */
  function IndexOf(s: string, c: char): (i: nat)
    requires c in s
    ensures i < |s| && s[i] == c && c !in s[..i]
  {
    if s[0] == c then 0
    else
      var j := IndexOf(s[1..], c);
      assert s[..j + 1] == [s[0]] + s[1..][..j];
      j + 1
  }

  /** `sep.join(words)` */
  function Join(words: seq<string>, sep: string): string {
    if |words| == 0 then ""
    else if |words| == 1 then words[0]
    else words[0] + sep + Join(words[1..], sep)
  }

  /** `s.split(sep)` for a one-character separator: the pieces between the
      separators, so that joining them back with `sep` gives `s` and no piece
      holds `sep`. There is always at least one piece. */
  function Split(s: string, sep: char): (r: seq<string>)
    ensures |r| >= 1
    ensures |r| == 1 <==> sep !in s
    ensures forall i :: 0 <= i < |r| ==> sep !in r[i]
    ensures Join(r, [sep]) == s
    decreases |s|
  {
    if sep !in s then [s]
    else
      var i := IndexOf(s, sep);
      var rest := Split(s[i + 1..], sep);
      assert ([s[..i]] + rest)[1..] == rest;
      assert s == s[..i] + [sep] + s[i + 1..];
      [s[..i]] + rest
  }

  /** Length of the run of non-whitespace characters that starts `s`. */
  function WordLength(s: string): (n: nat)
    ensures n <= |s| && NoSpace(s[..n]) && (n == |s| || IsSpace(s[n]))
  {
    if s == [] || IsSpace(s[0]) then 0
    else
      var n := WordLength(s[1..]);
      assert s[..n + 1] == [s[0]] + s[1..][..n];
      n + 1
  }

  /** Every word is non-empty and holds no whitespace. */
  predicate WellFormedWords(ws: seq<string>) {
    |ws| == 0 || (ws[0] != [] && NoSpace(ws[0]) && WellFormedWords(ws[1..]))
  }

  lemma ConsWellFormed(w: string, rest: seq<string>)
    requires w != [] && NoSpace(w) && WellFormedWords(rest)
    ensures WellFormedWords([w] + rest)
  {
    assert ([w] + rest)[1..] == rest;
  }

  /** `s.split()` with no argument: the maximal runs of non-whitespace, in
      order; every word is non-empty and holds no whitespace. */
  function Words(s: string): (r: seq<string>)
    ensures WellFormedWords(r)
    decreases |s|
  {
    var t := StripLeft(s);
    if t == [] then []
    else
      var n := WordLength(t);
      var w := t[..n];
      var rest := Words(t[n..]);
      ConsWellFormed(w, rest);
      [w] + rest
  }

  /** The characters of `s` that are not whitespace, in order. */
  function Unspaced(s: string): string
    decreases |s|
  {
    if s == [] then []
    else (if IsSpace(s[0]) then [] else [s[0]]) + Unspaced(s[1..])
  }

  lemma {:induction false} UnspacedAppend(a: string, b: string)
    ensures Unspaced(a + b) == Unspaced(a) + Unspaced(b)
    decreases |a|
  {
    if a != [] {
      assert (a + b)[0] == a[0];
      assert (a + b)[1..] == a[1..] + b;
      UnspacedAppend(a[1..], b);
    } else {
      assert a + b == b;
    }
  }

  lemma {:induction false} UnspacedOfSpaces(a: string)
    requires forall i :: 0 <= i < |a| ==> IsSpace(a[i])
    ensures Unspaced(a) == []
    decreases |a|
  {
    if a != [] {
      UnspacedOfSpaces(a[1..]);
    }
  }

  lemma {:induction false} UnspacedOfWord(a: string)
    requires NoSpace(a)
    ensures Unspaced(a) == a
    decreases |a|
  {
    if a != [] {
      UnspacedOfWord(a[1..]);
      HeadTail(a);
    }
  }

  lemma JoinBareCons(w: string, rest: seq<string>)
    ensures Join([w] + rest, "") == w + Join(rest, "")
  {
    if rest == [] {
      assert [w] + rest == [w];
      assert w + [] == w;
    } else {
      assert ([w] + rest)[1..] == rest;
    }
  }

  /** `split()` keeps every non-whitespace character: the words, run
      together, are `s` with its whitespace removed. */
  lemma {:induction false} WordsKeepText(s: string)
    ensures Join(Words(s), "") == Unspaced(s)
    decreases |s|
  {
    var t := StripLeft(s);
    UnspacedStripLeft(s);
    if t != [] {
      var n := WordLength(t);
      UnspacedWordFirst(t, n);
      WordsKeepText(t[n..]);
      JoinBareCons(t[..n], Words(t[n..]));
    }
  }

  lemma UnspacedStripLeft(s: string)
    ensures Unspaced(StripLeft(s)) == Unspaced(s)
  {
    var t := StripLeft(s);
    var k := |s| - |t|;
    assert s == s[..k] + t;
    UnspacedAppend(s[..k], t);
    assert forall i :: 0 <= i < k ==> s[..k][i] == s[i];
    UnspacedOfSpaces(s[..k]);
  }

  lemma UnspacedWordFirst(t: string, n: nat)
    requires n <= |t| && NoSpace(t[..n])
    ensures Unspaced(t) == t[..n] + Unspaced(t[n..])
  {
    assert t == t[..n] + t[n..];
    UnspacedAppend(t[..n], t[n..]);
    UnspacedOfWord(t[..n]);
  }

  /** `c.upper()` for ASCII letters; every other character is kept. */
  function UpperChar(c: char): char {
    if 'a' <= c <= 'z' then (c as int - 32) as char else c
  }

  /** `s.upper()` */
  function Upper(s: string): (r: string)
    ensures |r| == |s|
    ensures forall i :: 0 <= i < |s| ==> r[i] == UpperChar(s[i])
  {
    seq(|s|, i requires 0 <= i < |s| => UpperChar(s[i]))
  }

  /** `c.casefold()` for the ASCII capitals and for every character whose
      full case folding contains an ASCII letter; any other character is
      kept, which leaves unchanged whether an ASCII word occurs in the
      folded text. */
  function FoldChar(c: char): string {
    if 'A' <= c <= 'Z' then [(c as int + 32) as char]
    else if c == '\U{DF}' || c == '\U{1E9E}' then "ss"
    else if c == '\U{17F}' then "s"
    else if c == '\U{130}' then "i\U{307}"
    else if c == '\U{149}' then "\U{2BC}n"
    else if c == '\U{1F0}' then "j\U{30C}"
    else if c == '\U{1E96}' then "h\U{331}"
    else if c == '\U{1E97}' then "t\U{308}"
    else if c == '\U{1E98}' then "w\U{30A}"
    else if c == '\U{1E99}' then "y\U{30A}"
    else if c == '\U{1E9A}' then "a\U{2BE}"
    else if c == '\U{212A}' then "k"
    else if c == '\U{FB00}' then "ff"
    else if c == '\U{FB01}' then "fi"
    else if c == '\U{FB02}' then "fl"
    else if c == '\U{FB03}' then "ffi"
    else if c == '\U{FB04}' then "ffl"
    else if c == '\U{FB05}' || c == '\U{FB06}' then "st"
    else [c]
  }

  /** `s.casefold()` */
  function CaseFold(s: string): string {
    if s == [] then [] else FoldChar(s[0]) + CaseFold(s[1..])
  }

  predicate OccursAt(s: string, p: string, i: nat) {
    i + |p| <= |s| && s[i..i + |p|] == p
  }

  /** `s.find(p, from)` */
  function FindFrom(s: string, p: string, from: nat): (r: int)
    requires from <= |s| + 1
    ensures r == -1 || (from <= r && OccursAt(s, p, r))
    ensures forall i: nat :: from <= i && (r == -1 || i < r) ==> !OccursAt(s, p, i)
    decreases |s| + 1 - from
  {
    if from + |p| > |s| then -1
    else if s[from..from + |p|] == p then from
    else FindFrom(s, p, from + 1)
  }

  /** `s.find(p)`: the first index at which `p` occurs in `s`, or -1 when it
      occurs nowhere. */
  function Find(s: string, p: string): (r: int)
    ensures r == -1 || (0 <= r && OccursAt(s, p, r))
    ensures r == -1 ==> forall i: nat :: !OccursAt(s, p, i)
    ensures forall i: nat :: i < r ==> !OccursAt(s, p, i)
  {
    FindFrom(s, p, 0)
  }

  /** Stripping the front of a concatenation: the front of the first part
      goes first, and only if it was all whitespace is the second touched. */
  lemma {:induction false} StripLeftConcat(s: string, x: string)
    ensures StripLeft(s + x) == if StripLeft(s) == [] then StripLeft(x) else StripLeft(s) + x
    decreases |s|
  {
    if s == [] {
      assert s + x == x;
    } else {
      assert (s + x)[0] == s[0];
      assert (s + x)[1..] == s[1..] + x;
      if IsSpace(s[0]) {
        assert StripLeft(s + x) == StripLeft(s[1..] + x);
        assert StripLeft(s) == StripLeft(s[1..]);
        StripLeftConcat(s[1..], x);
      } else {
        assert StripLeft(s + x) == s + x;
      }
    }
  }

  /** `WordLength` is the length of the leading non-whitespace run. */
  lemma {:induction false} WordLengthAt(s: string, n: nat)
    requires n <= |s| && NoSpace(s[..n]) && (n == |s| || IsSpace(s[n]))
    ensures WordLength(s) == n
    decreases n
  {
    if n > 0 {
      assert s[1..][..n - 1] == s[..n][1..];
      WordLengthAt(s[1..], n - 1);
    }
  }

  /** Whitespace in front does not change the words. */
  lemma WordsAfterSpace(c: char, s: string)
    requires IsSpace(c)
    ensures Words([c] + s) == Words(s)
  {
    assert ([c] + s)[1..] == s;
  }

  lemma SliceAppend(t: string, x: string, n: nat)
    requires n <= |t|
    ensures (t + x)[..n] == t[..n] && (t + x)[n..] == t[n..] + x
  {
  }

  /** Whitespace at the end does not change the words. */
  lemma {:induction false} WordsBeforeSpace(s: string, c: char)
    requires IsSpace(c)
    ensures Words(s + [c]) == Words(s)
    decreases |s|
  {
    StripLeftConcat(s, [c]);
    var t := StripLeft(s);
    if t == [] {
      assert StripLeft([c]) == StripLeft([c][1..]);
    } else {
      var n := WordLength(t);
      var t' := t + [c];
      assert StripLeft(s + [c]) == t';
      SliceAppend(t, [c], n);
      WordLengthAt(t', n);
      WordsBeforeSpace(t[n..], c);
    }
  }


  /** A word followed by whitespace (or nothing) is the first word. */
  lemma WordsCons(w: string, tail: string)
    requires w != [] && NoSpace(w) && (tail == [] || IsSpace(tail[0]))
    ensures Words(w + tail) == [w] + Words(tail)
  {
    var j := w + tail;
    assert j[0] == w[0];
    assert StripLeft(j) == j;
    SliceAppend(w, tail, |w|);
    assert w[|w|..] == [];
    WordLengthAt(j, |w|);
  }

  /** Splitting at whitespace undoes joining with single spaces. */
  lemma {:induction false} WordsOfJoin(ws: seq<string>)
    requires WellFormedWords(ws)
    ensures Words(Join(ws, " ")) == ws
    decreases |ws|
  {
    if |ws| == 0 {
      assert StripLeft([]) == [];
    } else if |ws| == 1 {
      WordsOfOneWord(ws[0]);
      assert ws == [ws[0]];
    } else {
      var w := ws[0];
      var tail := ws[1..];
      var rest := Join(tail, " ");
      assert Join(ws, " ") == w + ([' '] + rest);
      WordsCons(w, [' '] + rest);
      WordsAfterSpace(' ', rest);
      WordsOfJoin(tail);
      HeadTail(ws);
    }
  }

  lemma HeadTail<T>(s: seq<T>)
    requires |s| > 0
    ensures [s[0]] + s[1..] == s
  {
  }

  lemma WordsOfOneWord(w: string)
    requires w != [] && NoSpace(w)
    ensures Words(w) == [w]
  {
    WordsCons(w, []);
    assert w + [] == w;
    assert StripLeft([]) == [];
  }

  /** Joining well-formed words with single spaces leaves no whitespace but
      single spaces that sit between two other characters. */
  lemma {:induction false} JoinShape(ws: seq<string>)
    requires WellFormedWords(ws)
    ensures |ws| > 0 ==> |Join(ws, " ")| > 0
    ensures var j := Join(ws, " ");
      forall i :: 0 <= i < |j| && IsSpace(j[i]) ==>
        j[i] == ' ' && 0 < i < |j| - 1 && !IsSpace(j[i - 1]) && !IsSpace(j[i + 1])
    decreases |ws|
  {
    if |ws| > 1 {
      var w := ws[0];
      var rest := Join(ws[1..], " ");
      JoinShape(ws[1..]);
      var j := Join(ws, " ");
      assert j == w + " " + rest;
      forall i | 0 <= i < |j|
        ensures IsSpace(j[i]) ==>
          j[i] == ' ' && 0 < i < |j| - 1 && !IsSpace(j[i - 1]) && !IsSpace(j[i + 1])
      {
        if i < |w| {
          assert j[i] == w[i];
        } else if i == |w| {
          assert j[i - 1] == w[|w| - 1] && j[i + 1] == rest[0];
        } else {
          assert j[i] == rest[i - |w| - 1];
          assert i - |w| - 1 > 0 ==> j[i - 1] == rest[i - |w| - 2];
          assert i + 1 < |j| ==> j[i + 1] == rest[i - |w|];
        }
      }
    }
  }
}
