/**
 * The three string primitives the search relies on: splitting text into
 * lines the way Rust's `str::lines` does, substring containment
 * (`str::contains` with a string pattern) and lower-casing
 * (`str::to_lowercase`, restricted here to ASCII letters).
 */
module Text {

  // ---------------------------------------------------------------- lines

  /**
   * The length of the first segment of a non-empty `s` when `s` is cut just
   * after each '\n' (Rust's `split_inclusive('\n')`): one past the first
   * '\n', or all of `s` when there is none.
   */
  function LineEnd(s: string): (n: nat)
    requires s != []
    ensures 0 < n <= |s|
    ensures forall k :: 0 <= k < n - 1 ==> s[k] != '\n'
    ensures n < |s| ==> s[n - 1] == '\n'
    decreases |s|
  {
    if s[0] == '\n' || |s| == 1 then 1 else 1 + LineEnd(s[1..])
  }

  /** Drops one trailing '\r', if there is one. */
  function DropCR(t: string): string {
    if t != [] && t[|t| - 1] == '\r' then t[..|t| - 1] else t
  }

  /**
   * Turns a segment into a line: a segment that ends in '\n' loses it and
   * then one '\r' before it; a final segment without '\n' is kept whole.
   */
  function TrimTerminator(seg: string): string {
    if seg != [] && seg[|seg| - 1] == '\n' then DropCR(seg[..|seg| - 1]) else seg
  }

  /**
   * The lines of `s`: the text between '\n' terminators, a "\r\n" terminator
   * counting as one, and no empty line after a final terminator.
   */
  function Lines(s: string): (ls: seq<string>)
    ensures |ls| <= |s|
    ensures forall k :: 0 <= k < |ls| ==> '\n' !in ls[k]
    decreases |s|
  {
    if s == [] then []
    else
      var n := LineEnd(s);
      [TrimTerminator(s[..n])] + Lines(s[n..])
  }

  /** The first terminator of `a + "\n" + b` is the one after `a`. */
  lemma LineEndOfBreak(a: string, b: string)
    requires '\n' !in a
    ensures LineEnd(a + "\n" + b) == |a| + 1
  {
    var s := a + "\n" + b;
    var n := LineEnd(s);
    assert s[|a|] == '\n';
  }

  /** A text without '\n' is one segment. */
  lemma LineEndNoBreak(a: string)
    requires a != [] && '\n' !in a
    ensures LineEnd(a) == |a|
  {
    var n := LineEnd(a);
  }

  /** Splitting at a terminator: the line before it, then the lines after it. */
  lemma LinesBreak(a: string, b: string)
    requires '\n' !in a
    ensures Lines(a + "\n" + b) == [DropCR(a)] + Lines(b)
  {
    var s := a + "\n" + b;
    LineEndOfBreak(a, b);
    assert s[..|a| + 1] == a + "\n";
    assert s[|a| + 1..] == b;
    assert (a + "\n")[..|a|] == a;
  }

  /** A non-empty text without terminator is a single line, kept whole. */
  lemma LinesLast(a: string)
    requires a != [] && '\n' !in a
    ensures Lines(a) == [a]
  {
    LineEndNoBreak(a);
    assert a[..|a|] == a;
    assert a[|a|..] == [];
  }

  /** Each line followed by '\n': the inverse of `Lines` on terminated text. */
  function Unlines(ls: seq<string>): string
    decreases |ls|
  {
    if ls == [] then [] else ls[0] + "\n" + Unlines(ls[1..])
  }

  predicate EndsWithCR(l: string) {
    l != [] && l[|l| - 1] == '\r'
  }

  /** Joining lines and splitting again gives the lines back. */
  lemma {:induction false} LinesUnlines(ls: seq<string>)
    requires forall k :: 0 <= k < |ls| ==> '\n' !in ls[k] && !EndsWithCR(ls[k])
    ensures Lines(Unlines(ls)) == ls
    decreases |ls|
  {
    if ls != [] {
      LinesBreak(ls[0], Unlines(ls[1..]));
      LinesUnlines(ls[1..]);
    }
  }

  /** No '\r' stands directly before a '\n' in `s`. */
  predicate NoCRBeforeLF(s: string) {
    forall k :: 0 < k < |s| && s[k] == '\n' ==> s[k - 1] != '\r'
  }

  lemma NoCRBeforeLFSuffix(s: string, n: nat)
    requires n <= |s| && NoCRBeforeLF(s)
    ensures NoCRBeforeLF(s[n..])
  {
    var b := s[n..];
    forall k | 0 < k < |b| && b[k] == '\n' ensures b[k - 1] != '\r' {
      assert b[k] == s[n + k] && b[k - 1] == s[n + k - 1];
    }
  }

  /** Splitting '\n'-terminated text with no "\r\n" and joining again gives the text back. */
  lemma {:induction false} UnlinesLines(s: string)
    requires NoCRBeforeLF(s)
    requires s == [] || s[|s| - 1] == '\n'
    ensures Unlines(Lines(s)) == s
    decreases |s|
  {
    if s != [] {
      var n := LineEnd(s);
      var a, b := s[..n - 1], s[n..];
      assert s == a + "\n" + b;
      assert '\n' !in a;
      assert DropCR(a) == a by {
        if a != [] {
          assert s[n - 1] == '\n' && s[n - 2] == a[|a| - 1];
        }
      }
      LinesBreak(a, b);
      NoCRBeforeLFSuffix(s, n);
      UnlinesLines(b);
    }
  }

  /** A line terminator as `str::lines` recognises it. */
  predicate IsTerminator(t: string) {
    t == "\n" || t == "\r\n"
  }

  /** A single line followed by a terminator is that line. */
  lemma TerminatedLine(s: string, t: string)
    requires s != [] && '\n' !in s && s[|s| - 1] != '\r'
    requires IsTerminator(t)
    ensures Lines(s + t) == [s]
  {
    if t == "\n" {
      LinesBreak(s, []);
      assert s + "\n" + [] == s + t;
    } else {
      LinesBreak(s + "\r", []);
      assert s + "\r" + "\n" + [] == s + t;
      assert (s + "\r")[..|s|] == s;
    }
  }

  /** A final terminator adds no line (unless it ends a '\r' or an empty line). */
  lemma {:induction false} LinesFinalTerminator(s: string, t: string)
    requires s != [] && s[|s| - 1] != '\n' && s[|s| - 1] != '\r'
    requires IsTerminator(t)
    ensures Lines(s + t) == Lines(s)
    decreases |s|
  {
    if '\n' !in s {
      LinesLast(s);
      TerminatedLine(s, t);
    } else {
      var n := LineEnd(s);
      var k :| 0 <= k < |s| && s[k] == '\n';
      assert n - 1 <= k < |s| - 1;
      var a, b := s[..n - 1], s[n..];
      assert s == a + "\n" + b;
      assert b != [] && b[|b| - 1] == s[|s| - 1];
      calc {
        Lines(s + t);
        { assert s + t == a + "\n" + (b + t); }
        Lines(a + "\n" + (b + t));
        { LinesBreak(a, b + t); }
        [DropCR(a)] + Lines(b + t);
        { LinesFinalTerminator(b, t); }
        [DropCR(a)] + Lines(b);
        { LinesBreak(a, b); }
        Lines(s);
      }
    }
  }

  /** A final "\n" or "\r\n" gives the same lines as no final terminator. */
  lemma LinesFinalNewline(s: string)
    requires s != [] && s[|s| - 1] != '\n' && s[|s| - 1] != '\r'
    ensures Lines(s + "\n") == Lines(s)
    ensures Lines(s + "\r\n") == Lines(s)
  {
    LinesFinalTerminator(s, "\n");
    LinesFinalTerminator(s, "\r\n");
  }

  // ------------------------------------------------------------ substrings

  /** `q` occurs in `s` as a contiguous substring (Rust's `str::contains`). */
  predicate Contains(s: string, q: string)
    decreases |s|
  {
    q <= s || (s != [] && Contains(s[1..], q))
  }

  /** `q` occurs in `s` starting at position `i`. */
  ghost predicate OccursAt(s: string, q: string, i: int) {
    0 <= i && i + |q| <= |s| && s[i..i + |q|] == q
  }

  /** `Contains` agrees with the positional definition of a substring. */
  lemma {:induction false} ContainsOccurs(s: string, q: string)
    ensures Contains(s, q) <==> exists i :: OccursAt(s, q, i)
    decreases |s|
  {
    if q <= s {
      assert OccursAt(s, q, 0);
    } else if s == [] {
    } else {
      ContainsOccurs(s[1..], q);
      if Contains(s[1..], q) {
        var i :| OccursAt(s[1..], q, i);
        assert s[1..][i..i + |q|] == s[i + 1..i + 1 + |q|];
        assert OccursAt(s, q, i + 1);
      }
      if exists i :: OccursAt(s, q, i) {
        var i :| OccursAt(s, q, i);
        assert i != 0;
        assert s[1..][i - 1..i - 1 + |q|] == s[i..i + |q|];
        assert OccursAt(s[1..], q, i - 1);
      }
    }
  }

  /** A non-empty query whose first character is absent cannot occur. */
  lemma {:induction false} NotContainsFirst(s: string, q: string)
    requires q != [] && q[0] !in s
    ensures !Contains(s, q)
    decreases |s|
  {
    if s != [] {
      assert s[0] != q[0];
      NotContainsFirst(s[1..], q);
    }
  }

  // ---------------------------------------------------------- lower case

  /** ASCII lower-casing of one character; every other character is unchanged. */
  function Lower(c: char): (d: char)
    ensures !('A' <= d <= 'Z')
    ensures 'A' <= c <= 'Z' ==> 'a' <= d <= 'z' && d as int - c as int == 'a' as int - 'A' as int
    ensures !('A' <= c <= 'Z') ==> d == c
  {
    if 'A' <= c <= 'Z' then (c as int + ('a' as int - 'A' as int)) as char else c
  }

  /** Lower-casing of a string, character by character. */
  function LowerStr(s: string): (t: string)
    ensures |t| == |s|
    ensures forall i :: 0 <= i < |s| ==> t[i] == Lower(s[i])
    decreases |s|
  {
    if s == [] then [] else [Lower(s[0])] + LowerStr(s[1..])
  }

  /** Lower-casing twice is lower-casing once. */
  lemma LowerStrIdempotent(s: string)
    ensures LowerStr(LowerStr(s)) == LowerStr(s)
  {
  }

  /** A lower-case letter appears in a lower-cased string only if it, or its capital, appears in the original. */
  lemma LowerStrExcludes(s: string, c: char)
    requires 'a' <= c <= 'z'
    requires c !in s && (c as int - ('a' as int - 'A' as int)) as char !in s
    ensures c !in LowerStr(s)
  {
  }

  /** An exact occurrence is also an occurrence once both sides are lower-cased. */
  lemma {:induction false} ContainsLower(s: string, q: string)
    ensures Contains(s, q) ==> Contains(LowerStr(s), LowerStr(q))
    decreases |s|
  {
    if q <= s {
      assert LowerStr(s)[..|q|] == LowerStr(q);
    } else if s != [] {
      ContainsLower(s[1..], q);
      assert LowerStr(s)[1..] == LowerStr(s[1..]);
    }
  }
}
