/** What does not get through the redactor: a value without blanks, quotes, separators and opening brackets. A scan of
  * the text before it, pass by pass, tells whether it is taken and what the whole result is.
  */
module RedactionPlain {
  import opened Keywords
  import opened Replacing
  import opened RedactionScan
  import opened RedactionShapes
  import opened Redaction
  import opened RedactionPatterns
  import opened RedactionValues

  // ---- No kept text reaches out of the value later, if none did before ----

  lemma TrailGives(left: string, kept: string, i: nat)
    requires IsTrail(left, kept) && i <= |kept| && forall k :: i <= k < |kept| ==> !IsBracket(kept[k])
    ensures |kept| - i <= |left| && Last(left, |kept| - i) == kept[i..]
  {
    if kept != left {
      var n: nat :| IsTrailOf(left, kept, n);
      assert |kept| - i <= n;
      assert kept[i..] == Last(kept, n)[n - (|kept| - i)..] == Last(left, n)[n - (|kept| - i)..];
    }
  }

  lemma PrefixHasNoBracket(s: Shape, x: string, i: nat, j: nat)
    requires IsShape(s) && i <= j <= |x| && s.prefix(x[i..j])
    ensures forall k :: i <= k < j ==> !IsBracket(x[k])
  {
    var y := x[i..j];
    assert y[..|y|] == y;
    NoBracket(s, y, |y|);
    assert forall k :: i <= k < j ==> x[k] == y[k - i];
  }

  lemma UnmarkedRight(right: string, m: nat, right2: string, w: nat)
    requires IsLed(REDACTED, right, m, right2) && w <= |right2|
    requires forall k :: 0 <= k < w ==> !IsBracket(right2[k])
    ensures w <= |right| && right2[..w] == right[..w]
  {
    if m < |right| {
      assert right2[m] == right2[m..m + |REDACTED|][0] == '[';
    }
    assert w <= m;
    assert right2[..w] == right2[..m][..w];
  }

  lemma PartAround(left: string, value: string, right: string, i: nat, w: nat)
    requires i < |left| + |value| && w <= |right|
    ensures var x, j := Around(left, value, right), |left| + |value| + w;
            && j <= |x|
            && x[i..j] == if i <= |left| then Around(left[i..], value, right[..w]) else value[i - |left|..] + right[..w]
  {
  }

  lemma CharsAround(left: string, value: string, right: string, i: nat, w: nat)
    requires i < |left| + |value| && w <= |right|
    requires forall k :: i <= k < |left| + |value| + w ==> !IsBracket(Around(left, value, right)[k])
    ensures forall k :: i <= k < |left| ==> !IsBracket(left[k])
    ensures forall k :: 0 <= k < w ==> !IsBracket(right[k])
  {
    AroundIs(left, value, right);
    forall k | 0 <= k < w ensures !IsBracket(right[k]) {
      assert Around(left, value, right)[|left| + |value| + k] == right[k];
    }
  }

  // What has no bracket and reaches out of the value stood around it before the pass.
  lemma PartWasThere(left: string, value: string, right: string, kept: string, m: nat, right2: string, i: nat, w: nat)
    returns (before: nat)
    requires IsTrail(left, kept) && IsLed(REDACTED, right, m, right2)
    requires i < |kept| + |value| && w <= |right2|
    requires forall k :: i <= k < |kept| ==> !IsBracket(kept[k])
    requires forall k :: 0 <= k < w ==> !IsBracket(right2[k])
    ensures before < |left| + |value| && w <= |right|
    ensures Around(left, value, right)[before..|left| + |value| + w] ==
            Around(kept, value, right2)[i..|kept| + |value| + w]
  {
    UnmarkedRight(right, m, right2, w);
    PartAround(kept, value, right2, i, w);
    if i <= |kept| {
      TrailGives(left, kept, i);
      before := |left| - (|kept| - i);
    } else {
      before := |left| + (i - |kept|);
    }
    PartAround(left, value, right, before, w);
  }

  lemma NoneCrossesPart(s: Shape, left: string, value: string, right: string, kept: string, m: nat, right2: string,
                        i: nat, j: nat)
    requires IsShape(s) && NoneCrosses(s, left, value, right) && IsTrail(left, kept)
    requires IsLed(REDACTED, right, m, right2) && i < |kept| + |value| < j <= |Around(kept, value, right2)|
    ensures !s.prefix(Around(kept, value, right2)[i..j])
  {
    var w := j - |kept| - |value|;
    if s.prefix(Around(kept, value, right2)[i..j]) {
      PrefixHasNoBracket(s, Around(kept, value, right2), i, j);
      CharsAround(kept, value, right2, i, w);
      var before := PartWasThere(left, value, right, kept, m, right2, i, w);
    }
  }

  lemma NoneCrossesAfter(s: Shape, r: Shape, left: string, value: string, right: string, kept: string)
    requires IsShape(s) && IsShape(r) && NoneCrosses(s, left, value, right) && IsTrail(left, kept)
    ensures NoneCrosses(s, kept, value, Run(r, right))
  {
    LeadIsCopied(FinderOf(r), REDACTED, right);
    forall i: nat, j: nat | i < |kept| + |value| < j <= |Around(kept, value, Run(r, right))|
      ensures !s.prefix(Around(kept, value, Run(r, right))[i..j])
    {
      NoneCrossesPart(s, left, value, right, kept, Lead(FinderOf(r), right), Run(r, right), i, j);
    }
  }

  // No kept text of any pattern reaches from the value, or from before it, into what follows.
  ghost predicate NoneLeavesValue(left: string, value: string, right: string) {
    forall q: Pass, i: nat, j: nat :: i < |left| + |value| < j <= |Around(left, value, right)| ==>
      !IsPrefix(q, Around(left, value, right)[i..j])
  }

  lemma NoneLeavesIsNoneCrosses(q: Pass, left: string, value: string, right: string)
    requires NoneLeavesValue(left, value, right)
    ensures NoneCrosses(ShapeOf(q), left, value, right)
  {
  }

  lemma StillNoneLeaves(r: Pass, left: string, value: string, right: string, kept: string)
    requires NoneLeavesValue(left, value, right) && IsTrail(left, kept)
    ensures NoneLeavesValue(kept, value, RunPass(r, right))
  {
    forall q: Pass, i: nat, j: nat | i < |kept| + |value| < j <= |Around(kept, value, RunPass(r, right))|
      ensures !IsPrefix(q, Around(kept, value, RunPass(r, right))[i..j])
    {
      StillNone(q, r, left, value, right, kept, i, j);
    }
  }

  lemma StillNone(q: Pass, r: Pass, left: string, value: string, right: string, kept: string, i: nat, j: nat)
    requires NoneLeavesValue(left, value, right) && IsTrail(left, kept)
    requires i < |kept| + |value| < j <= |Around(kept, value, RunPass(r, right))|
    ensures !IsPrefix(q, Around(kept, value, RunPass(r, right))[i..j])
  {
    PassHasShape(q);
    PassHasShape(r);
    NoneLeavesIsNoneCrosses(q, left, value, right);
    NoneCrossesAfter(ShapeOf(q), ShapeOf(r), left, value, right, kept);
    assert !ShapeOf(q).prefix(Around(kept, value, RunPass(r, right))[i..j]);
  }

  // ---- The passes in their order ----

  const PASSES: seq<Pass> := [Quoted, Bearer, Colon, Assignment]

  function InTurn(run: (Pass, string) -> string, passes: seq<Pass>, x: string): string {
    if passes == [] then x else InTurn(run, passes[1..], run(passes[0], x))
  }

  function RunAll(passes: seq<Pass>, x: string): string {
    InTurn(RunPass, passes, x)
  }

  function ScanPass(p: Pass, left: string, right: string): Scanned {
    PassHasShape(p);
    Scan(ShapeOf(p), left, right)
  }

  // The passes over left, with a value and right behind it, without a look at the value.
  function ScanAll(passes: seq<Pass>, left: string, right: string): Scanned {
    if passes == [] then Kept(left)
    else
      match ScanPass(passes[0], left, right)
      case Taken(text) => Taken(RunAll(passes[1..], text))
      case Kept(kept) => ScanAll(passes[1..], kept, RunPass(passes[0], right))
  }

  lemma PassIsScan(p: Pass, left: string, value: string, right: string)
    requires IsValue(value) && NoneLeavesValue(left, value, right)
    ensures RunPass(p, Around(left, value, right)) == Shown(ScanPass(p, left, right), value, RunPass(p, right))
    ensures ScanPass(p, left, right).Kept? ==> IsTrail(left, ScanPass(p, left, right).left)
  {
    PassHasShape(p);
    NoneLeavesIsNoneCrosses(p, left, value, right);
    RunIsScan(ShapeOf(p), left, value, right);
    ScanKeepsTrail(ShapeOf(p), left, right);
  }

  lemma {:induction false} RunAllIsScan(passes: seq<Pass>, left: string, value: string, right: string)
    requires IsValue(value) && NoneLeavesValue(left, value, right)
    ensures RunAll(passes, Around(left, value, right)) ==
            Shown(ScanAll(passes, left, right), value, RunAll(passes, right))
    decreases |passes|
  {
    if passes != [] {
      var p := passes[0];
      PassIsScan(p, left, value, right);
      var scanned := ScanPass(p, left, right);
      if scanned.Kept? {
        StillNoneLeaves(p, left, value, right, scanned.left);
        RunAllIsScan(passes[1..], scanned.left, value, RunPass(p, right));
      }
    }
  }

  lemma RedactIsRunAll(x: string)
    ensures RedactLikelySecret(x) == RunAll(PASSES, x)
  {
    PatternsArePasses(x);
    InTurnIsInOrder(RunPass, x);
  }

  lemma InTurnIsInOrder(run: (Pass, string) -> string, x: string)
    ensures InTurn(run, PASSES, x) == InOrder(run, x)
  {
    assert PASSES[1..] == [Bearer, Colon, Assignment] && [Bearer, Colon, Assignment][1..] == [Colon, Assignment];
    assert [Colon, Assignment][1..] == [Assignment] && [Assignment][1..] == [];
    var b := run(Bearer, run(Quoted, x));
    var c := run(Colon, b);
    assert InTurn(run, [Assignment], c) == InTurn(run, [], run(Assignment, c));
    assert InTurn(run, [Colon, Assignment], b) == InTurn(run, [Assignment], c);
  }

  // What the redactor makes of a plain value, anywhere: it is gone, or it stands there as it stood before.
  lemma PlainSecretIsTakenOrKept(left: string, value: string, right: string)
    requires IsValue(value) && NoneLeavesValue(left, value, right)
    ensures RedactLikelySecret(Around(left, value, right)) ==
            Shown(ScanAll(PASSES, left, right), value, RedactLikelySecret(right))
  {
    RedactIsRunAll(Around(left, value, right));
    RedactIsRunAll(right);
    RunAllIsScan(PASSES, left, value, right);
  }

  lemma ShownTellsValue(scanned: Scanned, value: string, other: string, right: string)
    requires value != other
    ensures Shown(scanned, value, right) == Shown(scanned, other, right) <==> scanned.Taken?
  {
    if scanned.Kept? {
      AroundTellsValue(scanned.left, value, other, right);
    }
  }

  lemma AroundTellsValue(left: string, value: string, other: string, right: string)
    requires value != other
    ensures Around(left, value, right) != Around(left, other, right)
  {
    AroundIs(left, value, right);
    AroundIs(left, other, right);
    if |value| == |other| {
      var k :| 0 <= k < |value| && value[k] != other[k];
      assert Around(left, value, right)[|left| + k] != Around(left, other, right)[|left| + k];
    }
  }

  lemma TakenIsAlike(left: string, value: string, other: string, right: string)
    requires IsValue(value) && IsValue(other) && ScanAll(PASSES, left, right).Taken?
    requires NoneLeavesValue(left, value, right) && NoneLeavesValue(left, other, right)
    ensures RedactLikelySecret(Around(left, value, right)) == RedactLikelySecret(Around(left, other, right))
  {
    PlainSecretIsTakenOrKept(left, value, right);
    PlainSecretIsTakenOrKept(left, other, right);
  }

  // The redacted text is the same for two plain values exactly when a scan of the text before them takes them.
  lemma PlainSecretDoesNotLeak(left: string, value: string, other: string, right: string)
    requires IsValue(value) && IsValue(other) && value != other
    requires NoneLeavesValue(left, value, right) && NoneLeavesValue(left, other, right)
    ensures RedactLikelySecret(Around(left, value, right)) == RedactLikelySecret(Around(left, other, right)) <==>
            ScanAll(PASSES, left, right).Taken?
  {
    PlainSecretIsTakenOrKept(left, value, right);
    PlainSecretIsTakenOrKept(left, other, right);
    ShownTellsValue(ScanAll(PASSES, left, right), value, other, RedactLikelySecret(right));
  }
}
