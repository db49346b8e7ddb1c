/** `sanitize_title`: turning a script title into the identifier used in
    every artifact path. */
module Titles {

  /** `s.replace(c, repl)` where the pattern is the single character `c`. */
  function ReplaceChar(s: string, c: char, repl: string): (r: string)
    ensures c !in repl ==> c !in r
    ensures forall x :: x in r ==> (x in s && x != c) || x in repl
    ensures c !in s ==> r == s
  {
    if s == [] then [] else (if s[0] == c then repl else [s[0]]) + ReplaceChar(s[1..], c, repl)
  }

  /** On one character, `str.replace` substitutes the replacement for the
      pattern and keeps any other character. */
  lemma ReplaceCharOne(x: char, c: char, repl: string)
    ensures ReplaceChar([x], c, repl) == if x == c then repl else [x]
  {
    assert [x][1..] == [];
  }

  /** The replacement works character by character and keeps order:
      replacing in two parts gives the two results one after the other. */
  lemma {:induction false} ReplaceCharAppend(a: string, b: string, c: char, repl: string)
    ensures ReplaceChar(a + b, c, repl) == ReplaceChar(a, c, repl) + ReplaceChar(b, c, repl)
  {
    if a != [] {
      var head := if a[0] == c then repl else [a[0]];
      assert (a + b)[0] == a[0] && (a + b)[1..] == a[1..] + b;
      ReplaceCharAppend(a[1..], b, c, repl);
      assert ReplaceChar(a + b, c, repl) == head + ReplaceChar(a[1..] + b, c, repl);
      assert ReplaceChar(a, c, repl) == head + ReplaceChar(a[1..], c, repl);
      Associative(head, ReplaceChar(a[1..], c, repl), ReplaceChar(b, c, repl));
    } else {
      assert a + b == b;
    }
  }

  lemma Associative(x: string, y: string, z: string)
    ensures x + (y + z) == (x + y) + z
  {
  }

  /** The three chained replacements of the source: spaces become `_`,
      colons are deleted, slashes become `_`. */
  function SanitizeTitle(title: string): (r: string)
    ensures ' ' !in r && ':' !in r && '/' !in r
  {
    ReplaceChar(ReplaceChar(ReplaceChar(title, ' ', "_"), ':', ""), '/', "_")
  }

  /** What sanitising does to one character, read independently of the others. */
  function SanitizeChar(c: char): string {
    if c == ' ' || c == '/' then "_" else if c == ':' then "" else [c]
  }

  /** Sanitising as one left-to-right pass, character by character. */
  function SanitizeEach(s: string): string {
    if s == [] then [] else SanitizeChar(s[0]) + SanitizeEach(s[1..])
  }

  lemma SanitizeAppend(a: string, b: string)
    ensures SanitizeTitle(a + b) == SanitizeTitle(a) + SanitizeTitle(b)
  {
    ReplaceCharAppend(a, b, ' ', "_");
    var a1, b1 := ReplaceChar(a, ' ', "_"), ReplaceChar(b, ' ', "_");
    ReplaceCharAppend(a1, b1, ':', "");
    var a2, b2 := ReplaceChar(a1, ':', ""), ReplaceChar(b1, ':', "");
    ReplaceCharAppend(a2, b2, '/', "_");
  }

  /** The chained replacements equal the character-by-character pass: a space
      or a slash becomes `_`, a colon disappears, every other character is
      kept, in order. */
  lemma {:induction false} SanitizeIsCharwise(title: string)
    ensures SanitizeTitle(title) == SanitizeEach(title)
  {
    if title != [] {
      assert title == [title[0]] + title[1..];
      SanitizeAppend([title[0]], title[1..]);
      SanitizeIsCharwise(title[1..]);
    }
  }

  /** Sanitising an already sanitised title changes nothing. */
  lemma SanitizeIdempotent(title: string)
    ensures SanitizeTitle(SanitizeTitle(title)) == SanitizeTitle(title)
  {
  }
}
