/** The first change that the redactor makes to a text is a mark behind a kept text, and it stays: no later pass changes
  * the text back.
  */
module RedactionMarks {
  import opened Text
  import opened Keywords
  import opened Replacing
  import opened Splitting
  import opened RedactionScan
  import opened RedactionFront

  // Kept texts of a quoted pattern end in a quote, and no others do.
  ghost predicate TellsQuotes(s: Shape) {
    forall y :: s.prefix(y) && y != "" ==> (y[|y| - 1] == '"' <==> s.quoted)
  }

  // The first difference of y from x is at d, and comes from a value at v that was replaced.
  ghost predicate IsChangedAt(s: Shape, x: string, y: string, v: nat, d: nat) {
    && 0 < v <= d <= v + |REDACTED| && d < |x| && d <= |y| && x[..d] == y[..d]
    && EndsPrefix(x[v - 1]) && (x[v - 1] == '"' <==> s.quoted)
    && x[v..d] == REDACTED[..d - v]
    && (d < v + |REDACTED| ==> d < |y| && y[d] == REDACTED[d - v] && y[d] != x[d])
    && (d == v + |REDACTED| ==> s.isValue(x[d]) && (d < |y| ==> !s.isValue(y[d])))
  }

  predicate IsFirstDifference(a: string, b: string, d: nat) {
    d < |a| && d <= |b| && a[..d] == b[..d] && (d < |b| ==> a[d] != b[d])
  }

  lemma FirstDifference(a: string, b: string, m: nat) returns (d: nat)
    requires m <= |a| && !(a[..m] <= b)
    ensures d < m && IsFirstDifference(a, b, d)
  {
    d := 0;
    while d < m && d < |b| && a[d] == b[d]
      invariant d <= m && d <= |b| && a[..d] == b[..d]
    {
      d := d + 1;
    }
    assert a[..d] <= b;
  }

  lemma DifferenceBehind(head: string, a: string, b: string, d: nat)
    requires IsFirstDifference(head + a, head + b, d)
    ensures |head| <= d && IsFirstDifference(a, b, d - |head|)
  {
    var x, y, n := head + a, head + b, |head|;
    assert forall k :: 0 <= k < n ==> x[k] == y[k];
    assert a[..d - n] == x[..d][n..] && b[..d - n] == y[..d][n..];
  }

  // A value that is not REDACTED differs from it, with what follows, in its first characters or right behind them.
  lemma ValueChanges(s: Shape, value: string, follows: string, rest: string, d: nat)
    requires IsShape(s) && value != REDACTED && forall k :: 0 <= k < |value| ==> s.isValue(value[k])
    requires follows != "" ==> !s.isValue(follows[0])
    requires if follows == "" then rest == "" else rest != "" && rest[0] == follows[0]
    requires IsFirstDifference(value + follows, REDACTED + rest, d)
    ensures d <= |REDACTED| && (value + follows)[..d] == REDACTED[..d]
    ensures d < |REDACTED| ==> (REDACTED + rest)[d] == REDACTED[d]
    ensures d == |REDACTED| ==> s.isValue((value + follows)[d])
    ensures d == |REDACTED| && d < |REDACTED + rest| ==> !s.isValue((REDACTED + rest)[d])
  {
    var a, b := value + follows, REDACTED + rest;
    assert forall k :: 0 <= k < d ==> a[k] == a[..d][k] == b[k];
    assert (|value| < 10 ==> b[|value|] == REDACTED[|value|]) && (follows != "" ==> a[|value|] == follows[0]);
    assert a[..|value|] == value && b[..10] == REDACTED;
    assert |value| > 10 ==> a[10] == value[10];
    assert |b| > 10 ==> b[10] == rest[0];
  }

  lemma ChangedLater(s: Shape, head: string, x: string, y: string, v: nat, d: nat)
    requires IsChangedAt(s, x, y, v, d)
    ensures IsChangedAt(s, head + x, head + y, |head| + v, |head| + d)
  {
    var n, a, b := |head|, head + x, head + y;
    assert a[n + (v - 1)] == x[v - 1] && a[n + d] == x[d] && (d < |y| ==> b[n + d] == y[d]);
    assert a[n + v..n + d] == x[v..d] && a[..n + d] == head + x[..d] && b[..n + d] == head + y[..d];
  }

  // Behind a common head, a difference as in ValueChanges is a change.
  lemma ChangedBehind(s: Shape, head: string, a: string, b: string, k: nat)
    requires IsShape(s) && TellsQuotes(s) && s.prefix(head) && k < |a| && k <= |b| && k <= |REDACTED|
    requires a[..k] == b[..k] == REDACTED[..k] && (k < |b| ==> a[k] != b[k])
    requires k < |REDACTED| ==> k < |b| && b[k] == REDACTED[k]
    requires k == |REDACTED| ==> s.isValue(a[k]) && (k < |b| ==> !s.isValue(b[k]))
    ensures IsChangedAt(s, head + a, head + b, |head|, |head| + k)
  {
    var x, y, n := head + a, head + b, |head|;
    PrefixEnds(s, head);
    assert x[n - 1] == head[n - 1] && x[n + k] == a[k] && (k < |b| ==> y[n + k] == b[k]);
    assert x[n..n + k] == a[..k] && x[..n + k] == head + a[..k] && y[..n + k] == head + b[..k];
  }

  // The first value is replaced by something else than it was.
  lemma ChangedHere(s: Shape, x: string, y: string, head: string, value: string, follows: string, rest: string, d: nat)
    requires IsShape(s) && TellsQuotes(s) && IsReplaced(s, x, y, head, value, follows, rest) && s.prefix(head)
    requires IsFirstDifference(x, y, d) && value != REDACTED
    ensures IsChangedAt(s, x, y, |head|, d)
  {
    DifferenceBehind(head, value + follows, REDACTED + rest, d);
    ChangedValue(s, head, value, follows, rest, d - |head|);
  }

  lemma ChangedValue(s: Shape, head: string, value: string, follows: string, rest: string, k: nat)
    requires IsShape(s) && TellsQuotes(s) && s.prefix(head) && value != REDACTED
    requires forall k :: 0 <= k < |value| ==> s.isValue(value[k])
    requires follows != "" ==> !s.isValue(follows[0])
    requires if follows == "" then rest == "" else rest != "" && rest[0] == follows[0]
    requires IsFirstDifference(value + follows, REDACTED + rest, k)
    ensures IsChangedAt(s, head + (value + follows), head + (REDACTED + rest), |head|, |head| + k)
  {
    ValueChanges(s, value, follows, rest, k);
    ChangedBehind(s, head, value + follows, REDACTED + rest, k);
  }

  // ---- One pass ----

  lemma FoundIsLater(s: Shape, x: string)
    requires IsShape(s) && FindValue(s, x).Found?
    ensures 0 < FindValue(s, x).start <= FindValue(s, x).end <= |x|
  {
    PrefixEnds(s, x[..FindValue(s, x).start]);
  }

  lemma ChangedAfterCopying(s: Shape, x: string, rest: string, v: nat, d: nat)
    requires IsShape(s) && x != "" && FindValue(s, x).NotFound? && rest == x[1..]
    requires IsChangedAt(s, rest, Run(s, rest), v, d)
    ensures IsChangedAt(s, x, Run(s, x), v + 1, d + 1)
  {
    RunCopies(s, x, rest);
    ChangedLater(s, [x[0]], rest, Run(s, rest), v, d);
    assert [x[0]] + rest == x;
  }

  // A value that is REDACTED already is no difference.
  lemma SameValue(s: Shape, x: string, y: string, head: string, follows: string, rest: string, d: nat)
    requires IsReplaced(s, x, y, head, REDACTED, follows, rest) && IsFirstDifference(x, y, d)
    ensures |head + REDACTED| <= d && IsFirstDifference(follows, rest, d - |head + REDACTED|)
    ensures x == (head + REDACTED) + follows && y == (head + REDACTED) + rest
  {
    Associate(head, REDACTED, follows);
    Associate(head, REDACTED, rest);
    DifferenceBehind(head + REDACTED, follows, rest, d);
  }

  // Where a pass first changes a text it has put a mark.
  lemma {:induction false} FirstChange(s: Shape, x: string, d: nat) returns (v: nat)
    requires IsShape(s) && TellsQuotes(s) && IsFirstDifference(x, Run(s, x), d)
    ensures IsChangedAt(s, x, Run(s, x), v, d)
    decreases |x|, 1
  {
    var r := FindValue(s, x);
    if r.NotFound? {
      v := FirstChangeLater(s, x, x[1..], d);
    } else {
      FoundIsLater(s, x);
      FoundIsReplaced(s, x, r.start, r.end);
      var follows := x[r.end..];
      if x[r.start..r.end] == REDACTED {
        SameValue(s, x, Run(s, x), x[..r.start], follows, Run(s, follows), d);
        var head := x[..r.start] + REDACTED;
        v := FirstChangeBehind(s, x, Run(s, x), head, follows, d - |head|);
      } else {
        v := r.start;
        ChangedHere(s, x, Run(s, x), x[..r.start], x[r.start..r.end], follows, Run(s, follows), d);
      }
    }
  }

  lemma {:induction false} FirstChangeBehind(s: Shape, x: string, y: string, head: string, follows: string, k: nat)
    returns (v: nat)
    requires IsShape(s) && TellsQuotes(s) && head != "" && x == head + follows && y == head + Run(s, follows)
    requires IsFirstDifference(follows, Run(s, follows), k)
    ensures IsChangedAt(s, x, y, v, |head| + k)
    decreases |x|, 0
  {
    var w := FirstChange(s, follows, k);
    v := ChangedBehindMark(s, x, y, head, follows, Run(s, follows), w, k);
  }

  lemma ChangedBehindMark(s: Shape, x: string, y: string, head: string, follows: string, rest: string, w: nat, k: nat)
    returns (v: nat)
    requires x == head + follows && y == head + rest && IsChangedAt(s, follows, rest, w, k)
    ensures IsChangedAt(s, x, y, v, |head| + k)
  {
    ChangedLater(s, head, follows, rest, w, k);
    v := |head| + w;
  }

  lemma {:induction false} FirstChangeLater(s: Shape, x: string, rest: string, d: nat) returns (v: nat)
    requires IsShape(s) && TellsQuotes(s) && IsFirstDifference(x, Run(s, x), d)
    requires x != "" && FindValue(s, x).NotFound? && rest == x[1..]
    ensures IsChangedAt(s, x, Run(s, x), v, d)
    decreases |x|, 0
  {
    RunCopies(s, x, rest);
    assert x == [x[0]] + rest;
    DifferenceBehind([x[0]], rest, Run(s, rest), d);
    v := FirstChange(s, rest, d - 1);
    ChangedAfterCopying(s, x, rest, v, d - 1);
    v := v + 1;
  }

  // ---- What was changed stays changed ----

  // The first difference of y from a text x is at d, and comes from a mark at v.
  predicate IsMarked(x: string, y: string, v: nat, d: nat) {
    && 0 < v <= d <= v + |REDACTED| && IsFirstDifference(x, y, d)
    && EndsPrefix(y[v - 1]) && y[v..d] == REDACTED[..d - v]
    && (d < v + |REDACTED| ==> d < |y| && y[d] == REDACTED[d - v])
    && (d == v + |REDACTED| && d < |y| ==> IsBlank(y[d]) || y[d] == '"')
  }

  // A quote behind the mark closes the one in front of it.
  predicate IsFirm(y: string, v: nat, d: nat) {
    0 < v < |y| && d == v + |REDACTED| && d < |y| && y[d] == '"' ==> y[v - 1] == '"'
  }

  // Which values end only at a blank, or at the quote that closes them.
  ghost predicate EndsFirmly(s: Shape) {
    s.quoted || forall c :: !s.isValue(c) ==> IsBlank(c)
  }

  lemma ChangedIsMarked(s: Shape, x: string, y: string, z: string, v: nat, d: nat)
    requires IsShape(s) && IsChangedAt(s, y, z, v, d) && d < |x| && x[..d] == y[..d] && x[d] == y[d]
    ensures IsMarked(x, z, v, d) && (EndsFirmly(s) ==> IsFirm(z, v, d))
  {
    assert z[v - 1] == z[..d][v - 1] == y[..d][v - 1] == y[v - 1];
    assert z[v..d] == z[..d][v..] && y[v..d] == y[..d][v..];
  }

  // Two marks that end at the same place start at the same place.
  lemma OneMark(y: string, v: nat, w: nat, d: nat)
    requires 0 < v <= d <= |y| && 0 < w <= d && d <= v + |REDACTED| && d <= w + |REDACTED|
    requires EndsPrefix(y[v - 1]) && y[v..d] == REDACTED[..d - v]
    requires EndsPrefix(y[w - 1]) && y[w..d] == REDACTED[..d - w]
    ensures v == w
  {
    assert forall k :: v <= k < d ==> y[k] == y[v..d][k - v] == REDACTED[k - v];
    assert forall k :: w <= k < d ==> y[k] == y[w..d][k - w] == REDACTED[k - w];
  }

  // A later pass does not change the text where it is marked.
  lemma MarkIsNotChanged(s: Shape, x: string, y: string, z: string, v: nat, d: nat, w: nat)
    requires IsShape(s) && !s.quoted && forall c :: IsBlank(c) ==> !s.isValue(c)
    requires IsMarked(x, y, v, d) && IsFirm(y, v, d)
    ensures !IsChangedAt(s, y, z, w, d)
  {
    if IsChangedAt(s, y, z, w, d) {
      OneMark(y, v, w, d);
    }
  }

  // A text that ends in a bracket is not continued.
  lemma ClosedIsNotContinued(s: Shape, y: string)
    requires IsShape(s) && y != "" && y[|y| - 1] == ']' && y <= Run(s, y)
    ensures Run(s, y) == y
  {
    FrontOfRun(s, y, |y|);
    assert y[..|y|] == y;
    forall k: nat | k <= |y| ensures IsCleanHead(FinderOf(s), REDACTED, y[k..]) {
      assert IsCleanAt(FinderOf(s), y, |y|, k);
      ClosedIsCleanHead(s, FinderOf(s), y, k, y[k..]);
    }
    CleanIsFixed(FinderOf(s), REDACTED, y);
  }

  lemma ClosedIsCleanHead(s: Shape, find: Finder, y: string, k: nat, z: string)
    requires IsShape(s) && find == FinderOf(s)
    requires y != "" && y[|y| - 1] == ']' && k <= |y| && z == y[k..] && IsCleanAt(find, y, |y|, k)
    ensures IsCleanHead(find, REDACTED, z)
  {
    var r := FindValue(s, z);
    if r.Found? {
      ClosedPart(s, y, k, z, r.start, r.end);
    }
  }

  lemma ClosedIsRedacted(value: string, m: nat)
    requires IsAlike(value, m) && 0 < |value| <= m && (|value| == m ==> value[m - 1] == ']')
    ensures value == REDACTED
  {
    assert |value| == m ==> value == value[..m] && REDACTED[..m][m - 1] == REDACTED[m - 1];
  }

  lemma ClosedPart(s: Shape, y: string, k: nat, z: string, v: nat, e: nat)
    requires y != "" && y[|y| - 1] == ']' && k <= |y| && z == y[k..] && v <= e <= |z| && ValueFollows(s, z, v)
    requires IsAlike(z[v..e], |z| - v)
    ensures z[v..e] == REDACTED
  {
    var value, m := z[v..e], |z| - v;
    ValueFollowsIsInside(s, z, v);
    assert e == |z| ==> value[m - 1] == z[v + (m - 1)] == y[k + (v + (m - 1))];
    if value != "" {
      ClosedIsRedacted(value, m);
    }
  }

  lemma ValueFollowsIsInside(s: Shape, z: string, v: nat)
    requires v <= |z| && ValueFollows(s, z, v)
    ensures v < |z|
  {
  }

  lemma MarkIsAhead(s: Shape, x: string, y: string, z: string, v: nat, d: nat, v2: nat, d2: nat)
    requires IsShape(s) && !s.quoted && forall c :: IsBlank(c) ==> !s.isValue(c)
    requires IsMarked(x, y, v, d) && IsFirm(y, v, d) && IsChangedAt(s, y, z, v2, d2) && d2 <= d
    ensures IsMarked(x, z, v2, d2) && (EndsFirmly(s) ==> IsFirm(z, v2, d2))
  {
    MarkIsNotChanged(s, x, y, z, v, d, v2);
    assert d2 < d ==> x[..d2] == x[..d][..d2] == y[..d][..d2] == y[..d2] && x[d2] == x[..d][d2] == y[..d][d2] == y[d2];
    if d2 < d {
      ChangedIsMarked(s, x, y, z, v2, d2);
    }
  }

  // A later pass leaves the mark, or sets one further ahead.
  lemma StillMarked(s: Shape, x: string, y: string, v: nat, d: nat) returns (v2: nat, d2: nat)
    requires IsShape(s) && TellsQuotes(s) && !s.quoted && forall c :: IsBlank(c) ==> !s.isValue(c)
    requires IsMarked(x, y, v, d) && IsFirm(y, v, d)
    ensures d2 <= d && IsMarked(x, Run(s, y), v2, d2) && (EndsFirmly(s) ==> IsFirm(Run(s, y), v2, d2))
  {
    var n := if d < |y| then d + 1 else d;
    if y[..n] <= Run(s, y) {
      v2, d2 := v, d;
      MarkIsLeft(s, x, y, v, d, n);
    } else {
      d2 := FirstDifference(y, Run(s, y), n);
      v2 := FirstChange(s, y, d2);
      MarkIsAhead(s, x, y, Run(s, y), v, d, v2, d2);
    }
  }

  lemma MarkIsLeft(s: Shape, x: string, y: string, v: nat, d: nat, n: nat)
    requires IsShape(s) && IsMarked(x, y, v, d) && IsFirm(y, v, d)
    requires n == (if d < |y| then d + 1 else d) && y[..n] <= Run(s, y)
    ensures IsMarked(x, Run(s, y), v, d) && IsFirm(Run(s, y), v, d)
  {
    var z := Run(s, y);
    if d == |y| {
      assert y[..d] == y && y[d - 1] == y[v..d][|REDACTED| - 1] == ']';
      ClosedIsNotContinued(s, y);
    } else {
      SameMark(x, y, z, v, d);
    }
  }

  lemma SameMark(x: string, y: string, z: string, v: nat, d: nat)
    requires d < |y| && y[..d + 1] <= z && IsMarked(x, y, v, d) && IsFirm(y, v, d)
    ensures IsMarked(x, z, v, d) && IsFirm(z, v, d)
  {
    assert z[..d + 1] == y[..d + 1];
    assert z[..d] == z[..d + 1][..d] == y[..d] && z[d] == z[..d + 1][d] == y[d];
    assert z[v - 1] == z[..d + 1][v - 1] == y[v - 1] && z[v..d] == z[..d][v..] == y[v..d];
  }
}
