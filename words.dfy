/** Whitespace tokenising as done by Python's `str.split()` with no
    separator: the words of a scene script, and how many there are. */
module Words {

  /** Python's `str.isspace` for one character: the ASCII whitespace and
      separator controls plus the Unicode space separators. */
  predicate IsSpace(c: char) {
    || ('\t' <= c <= '\r')
    || ('\U{1C}' <= c <= ' ')
    || c == '\U{85}' || c == '\U{A0}' || c == '\U{1680}'
    || ('\U{2000}' <= c <= '\U{200A}')
    || c == '\U{2028}' || c == '\U{2029}' || c == '\U{202F}' || c == '\U{205F}' || c == '\U{3000}'
  }

  predicate IsWord(w: string) {
    w != [] && forall i :: 0 <= i < |w| ==> !IsSpace(w[i])
  }

  /** Length of the longest whitespace-free prefix of `s`. */
  function TokenLen(s: string): (n: nat)
    ensures n <= |s|
    ensures forall i :: 0 <= i < n ==> !IsSpace(s[i])
    ensures n < |s| ==> IsSpace(s[n])
  {
    if s == [] || IsSpace(s[0]) then 0 else 1 + TokenLen(s[1..])
  }

  /** Any length with the defining property of `TokenLen` is its value. */
  lemma TokenLenUnique(s: string, n: nat)
    requires n <= |s|
    requires forall i :: 0 <= i < n ==> !IsSpace(s[i])
    requires n < |s| ==> IsSpace(s[n])
    ensures TokenLen(s) == n
  {
  }

  /** `s.split()`: the maximal runs of non-whitespace characters, in order. */
  function Split(s: string): (r: seq<string>)
    ensures forall k :: 0 <= k < |r| ==> IsWord(r[k])
    decreases |s|
  {
    if s == [] then []
    else if IsSpace(s[0]) then Split(s[1..])
    else var n := TokenLen(s); [s[..n]] + Split(s[n..])
  }

  /** `len(s.split())` */
  function WordCount(s: string): nat {
    |Split(s)|
  }

  /** Index `i` is where a maximal run of non-whitespace characters begins. */
  predicate StartsRun(s: string, i: nat)
    requires i < |s|
  {
    !IsSpace(s[i]) && (i == 0 || IsSpace(s[i - 1]))
  }

  /** The number of maximal non-whitespace runs, counted by scanning `s`
      from left to right. */
  function RunCount(s: string): nat {
    if s == [] then 0 else RunCount(s[..|s| - 1]) + (if StartsRun(s, |s| - 1) then 1 else 0)
  }

  /** The characters of `s` that are not whitespace, in order. */
  function NonSpace(s: string): string {
    if s == [] then [] else (if IsSpace(s[0]) then [] else [s[0]]) + NonSpace(s[1..])
  }

  function Concat(ws: seq<string>): string {
    if ws == [] then [] else ws[0] + Concat(ws[1..])
  }

  /** Appending one character adds a word exactly when that character
      begins a new run. */
  lemma {:induction false} SplitSnoc(p: string, c: char)
    ensures |Split(p + [c])| == |Split(p)| + (if StartsRun(p + [c], |p|) then 1 else 0)
    decreases |p|, 1
  {
    var s := p + [c];
    if p == [] {
      assert s == [c] && s[1..] == [];
      if !IsSpace(c) {
        assert TokenLen(s) == 1;
      }
    } else if IsSpace(p[0]) {
      SplitSnocAfterSpace(p, c);
    } else if TokenLen(p) == |p| {
      SplitSnocWholeToken(p, c);
    } else {
      SplitSnocAfterToken(p, c);
    }
  }

  lemma {:induction false} SplitSnocAfterSpace(p: string, c: char)
    requires p != [] && IsSpace(p[0])
    ensures |Split(p + [c])| == |Split(p)| + (if StartsRun(p + [c], |p|) then 1 else 0)
    decreases |p|, 0
  {
    var s := p + [c];
    assert s[0] == p[0] && s[1..] == p[1..] + [c];
    SplitSnoc(p[1..], c);
    assert |p| == 1 || s[|p| - 1] == (p[1..] + [c])[|p| - 2];
  }

  lemma SplitSnocWholeToken(p: string, c: char)
    requires p != [] && !IsSpace(p[0]) && TokenLen(p) == |p|
    ensures |Split(p + [c])| == |Split(p)| + (if StartsRun(p + [c], |p|) then 1 else 0)
  {
    var s := p + [c];
    assert s[..|p|] == p && s[0] == p[0];
    assert p[..|p|] == p && p[|p|..] == [];
    assert Split(p) == [p];
    if IsSpace(c) {
      TokenLenUnique(s, |p|);
      assert s[|p|..] == [c] && Split([c]) == Split([]);
    } else {
      TokenLenUnique(s, |s|);
      assert s[..|s|] == s && s[|s|..] == [];
    }
  }

  lemma {:induction false} SplitSnocAfterToken(p: string, c: char)
    requires p != [] && !IsSpace(p[0]) && TokenLen(p) < |p|
    ensures |Split(p + [c])| == |Split(p)| + (if StartsRun(p + [c], |p|) then 1 else 0)
    decreases |p|, 0
  {
    var s := p + [c];
    var n := TokenLen(p);
    assert s[0] == p[0];
    TokenLenUnique(s, n);
    assert s[..n] == p[..n] && s[n..] == p[n..] + [c];
    SplitSnoc(p[n..], c);
    assert s[|p| - 1] == (p[n..] + [c])[|p| - n - 1];
  }

  /** `len(s.split())` is the number of maximal non-whitespace runs of `s`. */
  lemma {:induction false} WordCountIsRunCount(s: string)
    ensures WordCount(s) == RunCount(s)
    decreases |s|
  {
    if s != [] {
      var p := s[..|s| - 1];
      assert s == p + [s[|s| - 1]];
      SplitSnoc(p, s[|s| - 1]);
      WordCountIsRunCount(p);
    }
  }

  lemma {:induction false} NonSpaceOfToken(s: string, n: nat)
    requires n <= |s|
    requires forall i :: 0 <= i < n ==> !IsSpace(s[i])
    ensures NonSpace(s) == s[..n] + NonSpace(s[n..])
    decreases n
  {
    if n > 0 {
      NonSpaceOfToken(s[1..], n - 1);
      assert s[1..][..n - 1] == s[1..n] && s[1..][n - 1..] == s[n..];
      assert s[..n] == [s[0]] + s[1..n];
    }
  }

  /** The words of `s`, joined back together, are exactly its non-whitespace
      characters: splitting drops whitespace and nothing else. */
  lemma {:induction false} SplitKeepsText(s: string)
    ensures Concat(Split(s)) == NonSpace(s)
    decreases |s|
  {
    if s != [] {
      if IsSpace(s[0]) {
        SplitKeepsText(s[1..]);
      } else {
        var n := TokenLen(s);
        var rest := Split(s[n..]);
        assert ([s[..n]] + rest)[0] == s[..n] && ([s[..n]] + rest)[1..] == rest;
        SplitKeepsText(s[n..]);
        NonSpaceOfToken(s, n);
      }
    }
  }

  /** A script has no words exactly when it is all whitespace. */
  lemma {:induction false} NoWordsIffBlank(s: string)
    ensures WordCount(s) == 0 <==> forall i :: 0 <= i < |s| ==> IsSpace(s[i])
    decreases |s|
  {
    if s != [] && IsSpace(s[0]) {
      NoWordsIffBlank(s[1..]);
      assert forall i :: 1 <= i < |s| ==> s[i] == s[1..][i - 1];
    }
  }
}
