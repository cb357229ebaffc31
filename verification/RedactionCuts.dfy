/** What happens to a redacted text that is cut and marked: another redaction may replace the value that runs into
  * the mark, and nothing else, so it never makes the text longer.
  */
module RedactionCuts {
  import opened Keywords
  import opened Replacing
  import opened Splitting
  import opened RedactionScan
  import opened RedactionShapes
  import opened Redaction

  // A mark: no kept text ends in it, and it is part of any value it follows.
  predicate IsMark(mark: string) {
    |mark| >= |REDACTED| && forall i :: 0 <= i < |mark| ==> !EndsPrefix(mark[i])
  }

  // The places where the kept texts of one match can end have no gap.
  ghost predicate HasNoGap(s: Shape) {
    forall y: string, a: nat, b: nat, c: nat :: a <= c <= b <= |y| && s.prefix(y[..a]) && s.prefix(y[..b]) ==>
      s.prefix(y[..c]) && (s.quoted ==> a == b)
  }

  lemma PassHasNoGap(p: Pass)
    ensures HasNoGap(ShapeOf(p))
  {
    var s := ShapeOf(p);
    forall y: string, a: nat, b: nat, c: nat | a <= c <= b <= |y| && s.prefix(y[..a]) && s.prefix(y[..b])
      ensures s.prefix(y[..c]) && (s.quoted ==> a == b)
    {
      PrefixesHaveNoGap(p, y, a, b, c);
    }
  }

  lemma PrefixesHaveNoGap(p: Pass, y: string, a: nat, b: nat, c: nat)
    requires a <= c <= b <= |y| && IsPrefix(p, y[..a]) && IsPrefix(p, y[..b])
    ensures IsPrefix(p, y[..c]) && (p.Quoted? ==> a == b)
  {
    if p.Quoted? {
      QuotedHasNoGap(y, a, b);
    } else {
      StemsHaveNoGap(p, y, a, b, c);
    }
  }

  lemma StemsHaveNoGap(p: Pass, y: string, a: nat, b: nat, c: nat)
    requires a <= c <= b <= |y| && IsStemAndSpaces(p, y[..a]) && IsStemAndSpaces(p, y[..b])
    ensures IsStemAndSpaces(p, y[..c])
  {
    StemAndSpacesOfPart(p, y, a);
    StemAndSpacesOfPart(p, y, b);
    StemAndSpacesOfPart(p, y, c);
  }

  lemma QuotedHasNoGap(y: string, a: nat, b: nat)
    requires a <= b <= |y| && IsPrefix(Quoted, y[..a]) && IsPrefix(Quoted, y[..b])
    ensures a == b
  {
    var z := y[..b];
    assert z[..a] == y[..a] && z[..|z|] == z;
    QuotedPrefixIsOne(z, a);
  }

  lemma MarkIsValue(s: Shape, mark: string)
    requires IsShape(s) && IsMark(mark)
    ensures forall i :: 0 <= i < |mark| ==> s.isValue(mark[i]) && mark[i] != '"'
  {
  }

  lemma KeptEndsInPrefix(s: Shape, x: string, v: nat)
    requires IsShape(s) && v <= |x| && s.prefix(x[..v])
    ensures v > 0 && EndsPrefix(x[v - 1])
  {
    PrefixEnds(s, x[..v]);
  }

  lemma MarkHasNoMatch(s: Shape, mark: string)
    requires IsShape(s) && IsMark(mark)
    ensures Run(s, mark) == mark
  {
    forall k | 0 <= k <= |mark| ensures IsCleanHead(FinderOf(s), REDACTED, mark[k..]) {
      NoMatchInMark(s, mark, k);
    }
    CleanIsFixed(FinderOf(s), REDACTED, mark);
  }

  lemma NoMatchInMark(s: Shape, mark: string, k: nat)
    requires IsShape(s) && IsMark(mark) && k <= |mark|
    ensures FindValue(s, mark[k..]).NotFound?
  {
    var r := FindValue(s, mark[k..]);
    if r.Found? {
      KeptEndsInPrefix(s, mark[k..], r.start);
    }
  }

  // The first n characters of z and a mark.
  ghost predicate IsCutAt(z: string, x: string, n: nat, mark: string) {
    IsMark(mark) && n <= |z| && x == z[..n] + mark
  }

  lemma CutAgrees(z: string, x: string, n: nat, mark: string)
    requires IsCutAt(z, x, n, mark)
    ensures |x| == n + |mark| && (forall k :: 0 <= k < n ==> x[k] == z[k])
    ensures forall k :: n <= k < |x| ==> x[k] == mark[k - n]
    ensures forall v :: 0 <= v <= n ==> x[..v] == z[..v]
  {
  }

  // A match of the cut text keeps nothing of the mark.
  lemma KeptIsBeforeMark(s: Shape, z: string, x: string, n: nat, mark: string, v: nat)
    requires IsShape(s) && IsCutAt(z, x, n, mark) && v <= |x| && s.prefix(x[..v])
    ensures 0 < v <= n && s.prefix(z[..v])
  {
    CutAgrees(z, x, n, mark);
    KeptEndsInPrefix(s, x, v);
  }

  // Where a match of the cut text could end its kept text.
  lemma CandidateOfCut(s: Shape, z: string, x: string, n: nat, mark: string, v: nat)
    requires IsShape(s) && !s.quoted && IsCutAt(z, x, n, mark) && v <= n && s.prefix(z[..v])
    requires v < n ==> s.isValue(z[v])
    ensures IsCandidate(s, x, v)
  {
    CutAgrees(z, x, n, mark);
    MarkIsValue(s, mark);
  }

  lemma ValueIsOfText(s: Shape, z: string, x: string, n: nat, mark: string, v: nat, e: nat)
    requires IsShape(s) && IsCutAt(z, x, n, mark) && IsCandidate(s, x, v) && e == ValueEnd(s, x, v) && e < n
    ensures IsCandidate(s, z, v) && ValueEnd(s, z, v) == e && z[v..e] == x[v..e]
  {
    CutAgrees(z, x, n, mark);
    KeptIsBeforeMark(s, z, x, n, mark, v);
    ValueEndIs(s, z, v, e);
    if s.quoted {
      assert z[v..][e - v] == '"';
    }
  }

  // A value that ends before the mark was the value of a match before the cut.
  lemma MatchWasThere(s: Shape, z: string, x: string, n: nat, mark: string)
    requires IsShape(s) && HasNoGap(s) && IsCutAt(z, x, n, mark)
    requires FindValue(s, x).Found? && FindValue(s, x).end < n
    ensures FindValue(s, z) == FindValue(s, x)
  {
    var v, e := FindValue(s, x).start, FindValue(s, x).end;
    KeptIsBeforeMark(s, z, x, n, mark, v);
    ValueIsOfText(s, z, x, n, mark, v, e);
    var w := FindValue(s, z).start;
    if !s.quoted {
      var c := if w <= n then w else n;
      assert s.prefix(z[..c]);
      CandidateOfCut(s, z, x, n, mark, c);
    }
  }

  lemma ValueTakesMark(s: Shape, z: string, x: string, n: nat, mark: string)
    requires IsShape(s) && IsCutAt(z, x, n, mark) && FindValue(s, x).Found? && n <= FindValue(s, x).end
    ensures FindValue(s, x).start <= n && FindValue(s, x).end == |x|
    ensures x[..FindValue(s, x).start] == z[..FindValue(s, x).start]
  {
    KeptIsBeforeMark(s, z, x, n, mark, FindValue(s, x).start);
    CutAgrees(z, x, n, mark);
    MarkIsValue(s, mark);
  }

  lemma RunToEnd(s: Shape, x: string)
    requires IsShape(s) && FindValue(s, x).Found? && FindValue(s, x).end == |x|
    ensures Run(s, x) == x[..FindValue(s, x).start] + REDACTED
  {
    RunReplaces(s, x, x[..FindValue(s, x).start], "");
  }

  // What the pass makes of a cut text: nothing is changed, or the value that runs into the mark is replaced.
  ghost predicate IsCutOrLess(z: string, n: nat, x: string, y: string) {
    y == x || exists q: nat :: q <= n <= |z| && y == z[..q] + REDACTED
  }

  lemma CutAfter(z: string, n: nat, x: string, mark: string, e: nat)
    requires IsCutAt(z, x, n, mark) && e <= n
    ensures IsCutAt(z[e..], x[e..], n - e, mark) && x[..e] == z[..e]
  {
    CutAgrees(z, x, n, mark);
    assert x[e..] == z[e..][..n - e] + mark;
  }

  lemma LongerPart(z: string, e: nat, q: nat)
    requires e <= |z| && q <= |z[e..]|
    ensures z[..e] + (z[e..][..q] + REDACTED) == z[..e + q] + REDACTED
  {
    Associate(z[..e], z[e..][..q], REDACTED);
    assert z[..e] + z[e..][..q] == z[..e + q];
  }

  lemma CutExtends(z: string, n: nat, x: string, mark: string, e: nat, rest: string)
    requires IsCutAt(z, x, n, mark) && e <= n && IsCutOrLess(z[e..], n - e, x[e..], rest)
    ensures IsCutOrLess(z, n, x, z[..e] + rest)
  {
    CutAfter(z, n, x, mark, e);
    if rest == x[e..] {
      assert x == x[..e] + x[e..];
    } else {
      var q: nat :| q <= n - e && rest == z[e..][..q] + REDACTED;
      LongerPart(z, e, q);
    }
  }

  // The first step of a pass over a cut text copies a part of the text, or ends the pass.
  lemma StepCopies(s: Shape, z: string, x: string, n: nat, mark: string) returns (e: nat)
    requires IsShape(s) && HasNoGap(s) && IsCutAt(z, x, n, mark) && 0 < n
    requires IsCleanHead(FinderOf(s), REDACTED, z)
    requires FindValue(s, x).Found? ==> FindValue(s, x).end < n
    ensures 0 < e <= n && Run(s, x) == z[..e] + Run(s, x[e..])
  {
    CutAgrees(z, x, n, mark);
    if FindValue(s, x).NotFound? {
      e := 1;
      RunCopies(s, x, x[1..]);
      assert z[..1] == [x[0]];
    } else {
      e := FindValue(s, x).end;
      MatchWasThere(s, z, x, n, mark);
      RedactedIsCopied(s, z, x, FindValue(s, x).start, e);
    }
  }

  lemma RedactedIsCopied(s: Shape, z: string, x: string, v: nat, e: nat)
    requires IsShape(s) && v <= e <= |x| && e <= |z| && x[..v] == z[..v]
    requires FindValue(s, x) == Found(v, e) && z[v..e] == REDACTED
    ensures Run(s, x) == z[..e] + Run(s, x[e..])
  {
    RunReplaces(s, x, z[..v], x[e..]);
    Associate(z[..v], z[v..e], Run(s, x[e..]));
    TwoParts(z, v, e);
  }

  lemma TwoParts(z: string, v: nat, e: nat)
    requires v <= e <= |z|
    ensures z[..v] + z[v..e] == z[..e]
  {
  }

  lemma {:induction false} RunOfCut(s: Shape, z: string, x: string, n: nat, mark: string)
    requires IsShape(s) && HasNoGap(s) && IsCutAt(z, x, n, mark) && IsCleanOf(s, z)
    ensures IsCutOrLess(z, n, x, Run(s, x))
    decreases n
  {
    var r := FindValue(s, x);
    if n == 0 {
      assert x == mark;
      MarkHasNoMatch(s, mark);
    } else if r.Found? && n <= r.end {
      ValueTakesMark(s, z, x, n, mark);
      RunToEnd(s, x);
    } else {
      assert z[0..] == z;
      var e := StepCopies(s, z, x, n, mark);
      CutAfter(z, n, x, mark, e);
      SuffixIsClean(FinderOf(s), REDACTED, z, e);
      RunOfCut(s, z[e..], x[e..], n - e, mark);
      CutExtends(z, n, x, mark, e, Run(s, x[e..]));
    }
  }

  // ---- The four passes ----

  // A first part of the text and a mark, no longer than the given length.
  ghost predicate IsCut(z: string, x: string, length: nat) {
    |x| <= length && exists n, mark :: IsCutAt(z, x, n, mark)
  }

  lemma RedactedIsMark()
    ensures IsMark(REDACTED)
  {
  }

  lemma RunKeepsCut(s: Shape, z: string, x: string, length: nat)
    requires IsShape(s) && HasNoGap(s) && IsCleanOf(s, z) && IsCut(z, x, length)
    ensures IsCut(z, Run(s, x), length)
  {
    var n: nat, mark :| IsCutAt(z, x, n, mark);
    RunOfCut(s, z, x, n, mark);
    if Run(s, x) != x {
      var q: nat :| q <= n && Run(s, x) == z[..q] + REDACTED;
      RedactedIsMark();
      assert IsCutAt(z, Run(s, x), q, REDACTED);
    }
  }

  lemma PassKeepsCut(p: Pass, z: string, x: string, length: nat)
    requires HasNoResidue(p, z) && IsCut(z, x, length)
    ensures IsCut(z, RunPass(p, x), length)
  {
    PassHasShape(p);
    PassHasNoGap(p);
    RunKeepsCut(ShapeOf(p), z, x, length);
  }

  // Redacting once more after the cut does not make the text longer.
  lemma CutStaysCut(z: string, n: nat, mark: string)
    requires IsMark(mark) && n <= |z| && forall p: Pass :: HasNoResidue(p, z)
    ensures IsCut(z, Redact(z[..n] + mark), n + |mark|)
  {
    var x := z[..n] + mark;
    assert IsCutAt(z, x, n, mark);
    var q := RunPass(Quoted, x);
    var b := RunPass(Bearer, q);
    PassKeepsCut(Quoted, z, x, |x|);
    PassKeepsCut(Bearer, z, q, |x|);
    PassKeepsCut(Colon, z, b, |x|);
    PassKeepsCut(Assignment, z, RunPass(Colon, b), |x|);
  }
}
