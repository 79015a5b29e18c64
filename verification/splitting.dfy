/**
  How `split(/\s+/)` cuts a text in general: a text without white space is one piece, and
  every maximal run of white space separates the pieces on its left from those on its
  right. The two facts together determine the pieces of every text.
 */
module Splitting {
  import opened Text

  /** The white-space run `w` is maximal between `a` and `b`: it is not empty, and neither
      `a` ends nor `b` starts with white space. */
  predicate Separates(a: string, w: string, b: string) {
    && |w| > 0 && (forall k :: 0 <= k < |w| ==> IsSpace(w[k]))
    && (|a| > 0 ==> !IsSpace(a[|a| - 1]))
    && (|b| > 0 ==> !IsSpace(b[0]))
  }

  /** A text without white space is a single piece. */
  lemma SplitWord(s: string)
    requires NoSpace(s)
    ensures Split(s) == [s]
  {
    SpanUnique(s, Whitespace, false, |s|);
  }

  /** A maximal run of white space separates the pieces on its left from those on its right:
      `a` does not end and `b` does not start with white space, so the run `w` is one
      separator. Together with `SplitWord` this determines `Split` on every text. */
  lemma {:induction false} SplitRun(a: string, w: string, b: string)
    requires Separates(a, w, b)
    ensures Split(a + w + b) == Split(a) + Split(b)
    decreases |a|
  {
    if NoSpace(a) {
      SplitLead(a, w, b);
      SplitWord(a);
    } else {
      var x, v, y := FirstPiece(a);
      SplitRun(y, w, b);
      RunStep(a, w, b, x, v, y);
    }
  }

  /** The inductive step of `SplitRun`: the first piece `x` of `a` heads both `Split(a)`
      and `Split(a + w + b)`, so the equation for the rest `y` carries over to `a`. */
  lemma RunStep(a: string, w: string, b: string, x: string, v: string, y: string)
    requires |w| > 0 && forall k :: 0 <= k < |w| ==> IsSpace(w[k])
    requires a == x + v + y && NoSpace(x)
    requires |v| > 0 && forall k :: 0 <= k < |v| ==> IsSpace(v[k])
    requires |y| > 0 && !IsSpace(y[0])
    requires Split(y + w + b) == Split(y) + Split(b)
    ensures Split(a + w + b) == Split(a) + Split(b)
  {
    var c := y + w + b;
    SplitLead(x, v, y);
    SplitLead(x, v, c);
    RegroupRun(a, w, b, x, v, y);
    ConsAppend(x, Split(y), Split(b), Split(c), Split(a), Split(a + w + b));
  }

  /** `(x + v + y) + w + b` is `x + v + (y + w + b)`. */
  lemma RegroupRun(a: string, w: string, b: string, x: string, v: string, y: string)
    requires a == x + v + y
    ensures a + w + b == x + v + (y + w + b)
  {
  }

  /** `SplitRun` stated by position: the maximal white-space run `s[i..j]` separates the
      pieces of `s[..i]` from those of `s[j..]`. */
  lemma SplitAround(s: string, i: nat, j: nat)
    requires i < j <= |s|
    requires forall k :: i <= k < j ==> IsSpace(s[k])
    requires i > 0 ==> !IsSpace(s[i - 1])
    requires j < |s| ==> !IsSpace(s[j])
    ensures Split(s) == Split(s[..i]) + Split(s[j..])
  {
    PositionParts(s, i, j);
    SplitParts(s, s[..i], s[i..j], s[j..]);
  }

  /** `SplitRun` for a text `s` known to be `a + w + b`. */
  lemma SplitParts(s: string, a: string, w: string, b: string)
    requires s == a + w + b
    requires Separates(a, w, b)
    ensures Split(s) == Split(a) + Split(b)
  {
    SplitRun(a, w, b);
  }

  /** The run conditions of `SplitAround`, read on the three parts of `s`. */
  lemma PositionParts(s: string, i: nat, j: nat)
    requires i < j <= |s|
    requires forall k :: i <= k < j ==> IsSpace(s[k])
    requires i > 0 ==> !IsSpace(s[i - 1])
    requires j < |s| ==> !IsSpace(s[j])
    ensures s == s[..i] + s[i..j] + s[j..]
    ensures Separates(s[..i], s[i..j], s[j..])
  {
    var a, w, b := s[..i], s[i..j], s[j..];
    forall k | 0 <= k < |w| ensures IsSpace(w[k]) {
      assert w[k] == s[i + k];
    }
    if i > 0 {
      assert a[i - 1] == s[i - 1];
    }
    if j < |s| {
      assert b[0] == s[j];
    }
    assert a + w + b == s;
  }

  /** A text with white space in it, and not at its end, is its first piece `x`, the run `v`
      after it, and a non-empty rest `y` that starts and ends outside white space. */
  lemma FirstPiece(a: string) returns (x: string, v: string, y: string)
    requires !NoSpace(a)
    requires |a| > 0 ==> !IsSpace(a[|a| - 1])
    ensures a == x + v + y
    ensures NoSpace(x)
    ensures |v| > 0 && forall k :: 0 <= k < |v| ==> IsSpace(v[k])
    ensures 0 < |y| < |a| && !IsSpace(y[0]) && !IsSpace(y[|y| - 1])
  {
    var n, m := FirstRun(a);
    x, v, y := a[..n], a[n..m], a[m..];
    PieceParts(a, n, m);
  }

  /** The first white-space run of a text that has white space, and does not end in it,
      runs from `n` to `m`. */
  lemma FirstRun(s: string) returns (n: nat, m: nat)
    requires !NoSpace(s)
    requires |s| > 0 ==> !IsSpace(s[|s| - 1])
    ensures n < m < |s|
    ensures forall k :: 0 <= k < n ==> !IsSpace(s[k])
    ensures forall k :: n <= k < m ==> IsSpace(s[k])
    ensures !IsSpace(s[m])
  {
    var k0 :| 0 <= k0 < |s| && IsSpace(s[k0]);
    n := Span(s, Whitespace, false);
    assert n <= k0;
    var u := s[n..];
    var r := Span(u, Whitespace, true);
    m := n + r;
    assert u[0] == s[n];
    assert m < |s|;
    forall k | n <= k < m ensures IsSpace(s[k]) {
      assert s[k] == u[k - n];
      assert In(u[k - n], Whitespace);
    }
    assert s[m] == u[r];
  }

  /** The three parts of `s` that its first run `s[n..m]` delimits. */
  lemma PieceParts(s: string, n: nat, m: nat)
    requires n < m < |s| && !IsSpace(s[|s| - 1])
    requires forall k :: 0 <= k < n ==> !IsSpace(s[k])
    requires forall k :: n <= k < m ==> IsSpace(s[k])
    requires !IsSpace(s[m])
    ensures var x, v, y := s[..n], s[n..m], s[m..];
      && s == x + v + y
      && NoSpace(x)
      && |v| > 0 && (forall k :: 0 <= k < |v| ==> IsSpace(v[k]))
      && 0 < |y| < |s| && !IsSpace(y[0]) && !IsSpace(y[|y| - 1])
  {
    var x, v, y := s[..n], s[n..m], s[m..];
    forall k | 0 <= k < |x| ensures !IsSpace(x[k]) {
      assert x[k] == s[k];
    }
    forall k | 0 <= k < |v| ensures IsSpace(v[k]) {
      assert v[k] == s[n + k];
    }
    assert y[0] == s[m];
    assert y[|y| - 1] == s[|s| - 1];
    assert s == x + v + y;
  }

  /** The first piece of `x + v + y`, for a word `x` ended by the run `v`, is `x`. */
  lemma SplitLead(x: string, v: string, y: string)
    requires NoSpace(x)
    requires |v| > 0 && forall k :: 0 <= k < |v| ==> IsSpace(v[k])
    requires |y| > 0 ==> !IsSpace(y[0])
    ensures Split(x + v + y) == [x] + Split(y)
  {
    LeadParts(x, v, y);
    SplitAtRun(x + v + y, |x|, |x| + |v|);
  }

  /** Where `x`, `v` and `y` sit in `x + v + y`. */
  lemma LeadParts(x: string, v: string, y: string)
    requires NoSpace(x)
    requires |v| > 0 && forall k :: 0 <= k < |v| ==> IsSpace(v[k])
    requires |y| > 0 ==> !IsSpace(y[0])
    ensures var s, n, m := x + v + y, |x|, |x| + |v|;
      && (forall k :: 0 <= k < n ==> !IsSpace(s[k]))
      && (forall k :: n <= k < m ==> IsSpace(s[k]))
      && (m < |s| ==> !IsSpace(s[m]))
      && s[..n] == x && s[m..] == y
  {
    var s := x + v + y;
    var n, m := |x|, |x| + |v|;
    forall k | 0 <= k < n ensures !IsSpace(s[k]) {
      assert s[k] == x[k];
    }
    forall k | n <= k < m ensures IsSpace(s[k]) {
      assert s[k] == v[k - n];
    }
    if m < |s| {
      assert s[m] == y[0];
    }
    assert s[..n] == x;
    assert s[m..] == y;
  }

  /** Regrouping `[x] + (a + b)` as `([x] + a) + b`, for named sequences. */
  lemma ConsAppend(x: string, a: seq<string>, b: seq<string>, r: seq<string>, p: seq<string>, t: seq<string>)
    requires r == a + b && p == [x] + a && t == [x] + r
    ensures t == p + b
  {
  }

  /** A text whose first white space is at `n`, in a run up to `m` that is followed by a
      character that is not white space or by the end, splits into `s[..n]` and the pieces
      from `m` on. */
  lemma SplitAtRun(s: string, n: nat, m: nat)
    requires n < m <= |s|
    requires forall k :: 0 <= k < n ==> !IsSpace(s[k])
    requires forall k :: n <= k < m ==> IsSpace(s[k])
    requires m < |s| ==> !IsSpace(s[m])
    ensures Split(s) == [s[..n]] + Split(s[m..])
  {
    SpanUnique(s, Whitespace, false, n);
    RunAt(s, n, m);
    SplitUnfold(s, n, m);
  }

  /** The white-space run at `n` ends at `m`. */
  lemma RunAt(s: string, n: nat, m: nat)
    requires n < m <= |s|
    requires forall k :: n <= k < m ==> IsSpace(s[k])
    requires m < |s| ==> !IsSpace(s[m])
    ensures n + Span(s[n..], Whitespace, true) == m
  {
    var u := s[n..];
    forall k | 0 <= k < m - n ensures In(u[k], Whitespace) {
      assert u[k] == s[n + k];
    }
    if m < |s| {
      assert u[m - n] == s[m];
    }
    SpanUnique(u, Whitespace, true, m - n);
  }

  /** One step of `Split`: the first piece ends at `n`, the next starts at `m`. */
  lemma SplitUnfold(s: string, n: nat, m: nat)
    requires n == Span(s, Whitespace, false) < |s|
    requires m == n + Span(s[n..], Whitespace, true)
    ensures Split(s) == [s[..n]] + Split(s[m..])
  {
  }
}
