/** When nothing before a value can keep the redactor from taking it: the text in front of it ends in a kept text, and
  * no earlier value reaches into that.
  */
module RedactionKept {
  import opened Text
  import opened Keywords
  import opened RedactionScan
  import opened RedactionShapes
  import opened Redaction
  import opened RedactionPatterns
  import opened RedactionPlain
  import opened RedactionSecrets
  import opened RedactionValues

  // ---- A scan that spares the end of the text ----

  ghost predicate IsLastOpen(s: Shape, left: string, right: string, v: nat) {
    Opens(s, left, right, v) && forall w: nat :: Opens(s, left, right, w) ==> w <= v
  }

  // No value that ends in left reaches into its last n characters.
  ghost predicate Spares(s: Shape, left: string, right: string, n: nat) {
    forall i: nat, v: nat :: i <= |left| && IsLastOpen(s, left[i..], right, v) ==>
      var e := ValueEnd(s, left[i..], v);
      e == |left[i..]| || e + n <= |left[i..]|
  }

  lemma SparesSuffix(s: Shape, left: string, right: string, n: nat, e: nat, m: nat)
    requires Spares(s, left, right, n) && e <= |left| && m <= n
    ensures Spares(s, left[e..], right, m)
  {
    forall i: nat, v: nat | i <= |left[e..]| && IsLastOpen(s, left[e..][i..], right, v)
      ensures var g := ValueEnd(s, left[e..][i..], v);
              g == |left[e..][i..]| || g + m <= |left[e..][i..]|
    {
      assert left[e..][i..] == left[e + i..];
    }
  }

  // Its last n characters are still there, and nothing else when those are all.
  predicate KeepsEnd(left: string, kept: string, n: nat) {
    n <= |kept| && n <= |left| && Last(kept, n) == Last(left, n) && (n == |left| ==> kept == left)
  }

  lemma FirstIsSpared(s: Shape, left: string, right: string, n: nat)
    requires Spares(s, left, right, n)
    ensures var open := LastOpen(s, left, right, |left|);
            open.Some? ==> ValueEnd(s, left, open.value) == |left| || ValueEnd(s, left, open.value) + n <= |left|
  {
    var open := LastOpen(s, left, right, |left|);
    assert left[0..] == left;
    assert open.Some? ==> IsLastOpen(s, left[0..], right, open.value);
  }

  lemma EndAfterCopying(left: string, kept: string, n: nat)
    requires left != "" && n <= |left| && KeepsEnd(left[1..], kept, if n < |left| then n else n - 1)
    ensures KeepsEnd(left, [left[0]] + kept, n)
  {
    var longer := [left[0]] + kept;
    if n < |left| {
      assert Last(longer, n) == Last(kept, n) && Last(left, n) == Last(left[1..], n);
    } else {
      assert longer == left;
    }
  }

  lemma EndAfterReplacing(left: string, head: string, e: nat, kept: string, n: nat)
    requires 0 < e <= |left| && e + n <= |left| && KeepsEnd(left[e..], kept, n)
    ensures KeepsEnd(left, head + kept, n)
  {
    assert Last(head + kept, n) == Last(kept, n) && Last(left, n) == Last(left[e..], n);
  }

  lemma {:induction false} ScanKeepsEnd(s: Shape, left: string, right: string, n: nat)
    requires IsShape(s) && n <= |left| && Spares(s, left, right, n)
    ensures Scan(s, left, right).Kept? ==> KeepsEnd(left, Scan(s, left, right).left, n)
    decreases |left|
  {
    var open := LastOpen(s, left, right, |left|);
    PrefixIsNotEmpty(s);
    FirstIsSpared(s, left, right, n);
    if open.None? && left != "" {
      var m: nat := if n < |left| then n else n - 1;
      SparesSuffix(s, left, right, n, 1, m);
      ScanKeepsEnd(s, left[1..], right, m);
      if Scan(s, left[1..], right).Kept? {
        EndAfterCopying(left, Scan(s, left[1..], right).left, n);
      }
    } else if open.Some? && ValueEnd(s, left, open.value) < |left| {
      var e := ValueEnd(s, left, open.value);
      SparesSuffix(s, left, right, n, e, n);
      ScanKeepsEnd(s, left[e..], right, n);
      if Scan(s, left[e..], right).Kept? {
        EndAfterReplacing(left, left[..open.value] + REDACTED, e, Scan(s, left[e..], right).left, n);
      }
    }
  }

  // A kept text at the end that is spared takes the value.
  lemma {:induction false} KeptIsTaken(s: Shape, left: string, right: string, n: nat)
    requires IsShape(s) && !s.quoted && n <= |left| && Spares(s, left, right, n) && s.prefix(Last(left, n))
    ensures Scan(s, left, right).Taken?
    decreases |left|
  {
    var open := LastOpen(s, left, right, |left|);
    PrefixIsNotEmpty(s);
    FirstIsSpared(s, left, right, n);
    assert n == |left| ==> Last(left, n) == left == left[..|left|] && Opens(s, left, right, |left|);
    assert Last(left, 0) == "";
    if open.None? {
      SparesSuffix(s, left, right, n, 1, n);
      assert Last(left[1..], n) == Last(left, n);
      KeptIsTaken(s, left[1..], right, n);
    } else if ValueEnd(s, left, open.value) < |left| {
      var e := ValueEnd(s, left, open.value);
      SparesSuffix(s, left, right, n, e, n);
      assert Last(left[e..], n) == Last(left, n);
      KeptIsTaken(s, left[e..], right, n);
    }
  }

  // ---- Where nothing reaches into the end of the text ----

  predicate HasNoBlank(text: string) {
    forall k :: 0 <= k < |text| ==> !IsBlank(text[k])
  }

  predicate IsSpaces(text: string) {
    forall k :: 0 <= k < |text| ==> IsSpace(text[k])
  }

  // Nothing but a blank, or nothing at all, is in front of k.
  predicate IsApart(left: string, k: nat)
    requires k <= |left|
  {
    k == 0 || IsBlank(left[k - 1])
  }

  // No unquoted kept text ends at k or later, but for the one that runs to the end and its spaces.
  ghost predicate NothingInside(left: string, k: nat) {
    forall r: Pass, i: nat, j: nat :: !r.Quoted? && i <= j && k <= j < |left| && IsPrefix(r, left[i..j]) ==>
      IsSpaces(left[j..])
  }

  // From k on there is no quote and no bracket. There is no blank either, or a blank is in front of k and no other
  // kept text ends from there on.
  ghost predicate IsClear(left: string, k: nat) {
    && k <= |left| && (forall j :: k <= j < |left| ==> left[j] != '"' && !IsBracket(left[j]))
    && (HasNoBlank(left[k..]) || (IsApart(left, k) && NothingInside(left, k)))
  }

  lemma MoreSpaces(r: Pass, y: string, v: nat)
    requires !r.Quoted? && v <= |y| && IsPrefix(r, y[..v]) && IsSpaces(y[v..])
    ensures IsPrefix(r, y)
  {
    assert forall k :: v <= k < |y| ==> y[k] == y[v..][k - v];
    StemAndSpacesOfPart(r, y, v);
    StemAndSpacesOfPart(r, y, |y|);
    assert y[..|y|] == y;
  }

  lemma OpensBehindSpaces(r: Pass, z: string, right: string, v: nat)
    requires !r.Quoted? && Opens(ShapeOf(r), z, right, v) && IsSpaces(z[v..])
    ensures Opens(ShapeOf(r), z, right, |z|)
  {
    MoreSpaces(r, z, v);
    assert z[..|z|] == z;
  }

  // How far in front of the value nothing is changed.
  function Reach(left: string, k: nat): nat
    requires k <= |left|
  {
    if HasNoBlank(left[k..]) || k == 0 then |left| - k else |left| - k + 1
  }

  // A quoted value that ends in left ends before the kept text.
  lemma QuotedEndsBefore(s: Shape, left: string, k: nat, at: nat)
    requires IsShape(s) && s.quoted && IsClear(left, k) && at < |left| && !s.isValue(left[at])
    ensures at + Reach(left, k) <= |left|
  {
  }

  // So does an unquoted one.
  lemma PlainEndsBefore(r: Pass, left: string, right: string, k: nat, i: nat, v: nat)
    requires !r.Quoted? && IsClear(left, k) && i <= |left| && IsLastOpen(ShapeOf(r), left[i..], right, v)
    requires ValueEnd(ShapeOf(r), left[i..], v) < |left[i..]|
    ensures i + ValueEnd(ShapeOf(r), left[i..], v) + Reach(left, k) <= |left|
  {
    var s := ShapeOf(r);
    var z := left[i..];
    var e := ValueEnd(s, z, v);
    PlainValueAt(r, left, i, v, e);
    assert forall j :: k <= j < |left| ==> left[k..][j - k] == left[j];
    if i + v >= k && !HasNoBlank(left[k..]) {
      assert left[i..i + v] == z[..v] && left[i + v..] == z[v..];
      OpensBehindSpaces(r, z, right, v);
    }
  }

  // An unquoted value has no blank in it, and a blank or a quote behind it.
  lemma PlainValueAt(r: Pass, left: string, i: nat, v: nat, e: nat)
    requires !r.Quoted? && i <= |left| && v <= |left[i..]| && e == ValueEnd(ShapeOf(r), left[i..], v) < |left[i..]|
    ensures forall j :: i + v <= j < i + e ==> !IsBlank(left[j])
    ensures IsBlank(left[i + e]) || left[i + e] == '"'
  {
    var s := ShapeOf(r);
    PassHasShape(r);
    assert forall j :: 0 <= j < |left[i..]| ==> left[i..][j] == left[i + j];
    forall j | i + v <= j < i + e ensures !IsBlank(left[j]) {
      assert s.isValue(left[i..][j - i]);
    }
  }

  lemma QuotedSparesAt(s: Shape, left: string, k: nat, i: nat, v: nat)
    requires IsShape(s) && s.quoted && IsClear(left, k) && i <= |left| && v <= |left[i..]|
    ensures var e := ValueEnd(s, left[i..], v);
            e == |left[i..]| || e + Reach(left, k) <= |left[i..]|
  {
    var e := ValueEnd(s, left[i..], v);
    if e < |left[i..]| {
      assert left[i..][e] == left[i + e];
      QuotedEndsBefore(s, left, k, i + e);
    }
  }

  lemma SparesAt(r: Pass, left: string, right: string, k: nat, i: nat, v: nat)
    requires IsClear(left, k) && i <= |left| && IsLastOpen(ShapeOf(r), left[i..], right, v)
    ensures var e := ValueEnd(ShapeOf(r), left[i..], v);
            e == |left[i..]| || e + Reach(left, k) <= |left[i..]|
  {
    if r.Quoted? {
      PassHasShape(r);
      QuotedSparesAt(ShapeOf(r), left, k, i, v);
    } else if ValueEnd(ShapeOf(r), left[i..], v) < |left[i..]| {
      PlainEndsBefore(r, left, right, k, i, v);
    }
  }

  lemma PassSpares(r: Pass, left: string, right: string, k: nat)
    requires IsClear(left, k)
    ensures Spares(ShapeOf(r), left, right, Reach(left, k))
  {
    var s := ShapeOf(r);
    forall i: nat, v: nat | i <= |left| && IsLastOpen(s, left[i..], right, v)
      ensures var e := ValueEnd(s, left[i..], v);
              e == |left[i..]| || e + Reach(left, k) <= |left[i..]|
    {
      SparesAt(r, left, right, k, i, v);
    }
  }

  // ---- What one pass leaves of these conditions ----

  // Both texts end alike from k in left and from k2 in kept.
  predicate EndsAlike(left: string, k: nat, kept: string, k2: nat) {
    && k <= |left| && k2 <= |kept| && |left| - k == |kept| - k2 && left[k..] == kept[k2..]
    && (IsApart(left, k) && !HasNoBlank(left[k..]) ==> IsApart(kept, k2))
  }

  lemma KeptEndIsAlike(left: string, k: nat, kept: string, k2: nat)
    requires IsClear(left, k) && EndsAlike(left, k, kept, k2)
    ensures forall m :: k2 <= m < |kept| ==> kept[m] != '"' && !IsBracket(kept[m])
  {
    assert forall m :: k2 <= m < |kept| ==> kept[m] == kept[k2..][m - k2] == left[k..][m - k2];
  }

  lemma InsideKept(r: Pass, left: string, k: nat, kept: string, k2: nat, i: nat, j: nat)
    requires IsClear(left, k) && NothingInside(left, k) && IsTrail(left, kept) && EndsAlike(left, k, kept, k2)
    requires !r.Quoted? && i <= j && k2 <= j < |kept| && IsPrefix(r, kept[i..j])
    ensures IsSpaces(kept[j..])
  {
    KeptEndIsAlike(left, k, kept, k2);
    PassHasShape(r);
    PrefixHasNoBracket(ShapeOf(r), kept, i, j);
    TrailGives(left, kept, i);
    SamePart(left, kept, i, j);
  }

  lemma NothingInsideKept(left: string, k: nat, kept: string, k2: nat)
    requires IsClear(left, k) && NothingInside(left, k) && IsTrail(left, kept) && EndsAlike(left, k, kept, k2)
    ensures NothingInside(kept, k2)
  {
    forall r: Pass, i: nat, j: nat | !r.Quoted? && i <= j && k2 <= j < |kept| && IsPrefix(r, kept[i..j])
      ensures IsSpaces(kept[j..])
    {
      InsideKept(r, left, k, kept, k2, i, j);
    }
  }

  // Two texts with the same end have the same parts in it.
  lemma SamePart(left: string, kept: string, i: nat, j: nat)
    requires i <= j <= |kept| && |kept| - i <= |left| && Last(left, |kept| - i) == kept[i..]
    ensures var i2, j2 := |left| - (|kept| - i), |left| - (|kept| - j);
            0 <= i2 <= j2 <= |left| && left[i2..j2] == kept[i..j] && left[j2..] == kept[j..]
  {
    var z := kept[i..];
    assert kept[i..j] == z[..j - i] && kept[j..] == z[j - i..];
  }

  lemma StillClear(left: string, k: nat, kept: string, k2: nat)
    requires IsClear(left, k) && IsTrail(left, kept) && EndsAlike(left, k, kept, k2)
    ensures IsClear(kept, k2)
  {
    KeptEndIsAlike(left, k, kept, k2);
    if !HasNoBlank(left[k..]) {
      NothingInsideKept(left, k, kept, k2);
    }
  }

  lemma EndsAlikeAfter(left: string, k: nat, kept: string)
    requires k <= |left| && KeepsEnd(left, kept, Reach(left, k))
    ensures |left| - k <= |kept| && EndsAlike(left, k, kept, |kept| - (|left| - k))
  {
    var n, m := Reach(left, k), |left| - k;
    assert left[k..] == Last(left, m) == Last(left, n)[n - m..];
    assert kept[|kept| - m..] == Last(kept, m) == Last(kept, n)[n - m..];
    assert n > m ==> Last(left, n)[0] == left[k - 1] && Last(kept, n)[0] == kept[|kept| - m - 1];
  }

  // ---- The passes up to that of the kept text ----

  lemma ScanLeavesEnd(s: Shape, left: string, right: string, k: nat, kept: string)
    requires IsShape(s) && k <= |left| && Spares(s, left, right, Reach(left, k))
    requires Scan(s, left, right) == Kept(kept)
    ensures IsTrail(left, kept) && |left| - k <= |kept| && EndsAlike(left, k, kept, |kept| - (|left| - k))
  {
    ScanKeepsTrail(s, left, right);
    ScanKeepsEnd(s, left, right, Reach(left, k));
    EndsAlikeAfter(left, k, kept);
  }

  lemma PassLeavesClear(r: Pass, left: string, right: string, k: nat, kept: string, k2: int)
    requires IsClear(left, k) && ScanPass(r, left, right) == Kept(kept) && k2 == |kept| - (|left| - k)
    ensures 0 <= k2 && EndsAlike(left, k, kept, k2) && IsClear(kept, k2)
  {
    PassHasShape(r);
    PassSpares(r, left, right, k);
    ScanLeavesEnd(ShapeOf(r), left, right, k, kept);
    StillClear(left, k, kept, k2);
  }

  lemma OwnPassTakes(p: Pass, left: string, right: string, k: nat, at: nat)
    requires IsClear(left, k) && !p.Quoted? && k <= at <= |left| && IsPrefix(p, left[at..])
    ensures ScanPass(p, left, right).Taken?
  {
    PassHasShape(p);
    PassSpares(p, left, right, k);
    assert left[0..] == left;
    SparesSuffix(ShapeOf(p), left, right, Reach(left, k), 0, |left| - at);
    KeptIsTaken(ShapeOf(p), left, right, |left| - at);
  }

  lemma SameEnd(left: string, k: nat, kept: string, k2: nat, at: nat)
    requires EndsAlike(left, k, kept, k2) && k <= at <= |left|
    ensures k2 + (at - k) <= |kept| && kept[k2 + (at - k)..] == left[at..]
  {
    assert left[at..] == left[k..][at - k..] && kept[k2 + (at - k)..] == kept[k2..][at - k..];
  }

  lemma NextScan(passes: seq<Pass>, left: string, right: string)
    requires passes != []
    ensures var scanned := ScanPass(passes[0], left, right);
            && (scanned.Taken? ==> ScanAll(passes, left, right).Taken?)
            && (scanned.Kept? ==> ScanAll(passes, left, right) ==
                                  ScanAll(passes[1..], scanned.left, RunPass(passes[0], right)))
  {
  }

  // From at on the text is a kept text of p, and from k on it is clear.
  ghost predicate IsBehind(p: Pass, left: string, k: nat, at: nat) {
    IsClear(left, k) && k <= at <= |left| && IsPrefix(p, left[at..])
  }

  lemma BehindAlike(p: Pass, left: string, k: nat, at: nat, kept: string, k2: nat)
    requires IsBehind(p, left, k, at) && EndsAlike(left, k, kept, k2) && IsClear(kept, k2)
    ensures IsBehind(p, kept, k2, k2 + (at - k))
  {
    SameEnd(left, k, kept, k2, at);
  }

  lemma StillBehind(r: Pass, p: Pass, left: string, right: string, k: nat, at: nat, kept: string)
    returns (k2: nat, at2: nat)
    requires IsBehind(p, left, k, at) && ScanPass(r, left, right) == Kept(kept)
    ensures IsBehind(p, kept, k2, at2)
  {
    PassLeavesClear(r, left, right, k, kept, |kept| - (|left| - k));
    k2 := |kept| - (|left| - k);
    at2 := k2 + (at - k);
    BehindAlike(p, left, k, at, kept, k2);
  }

  // A value is taken when the text before it ends in a kept text and is clear from there, or from further ahead, on.
  lemma {:induction false} KeptTextIsTaken(passes: seq<Pass>, p: Pass, left: string, right: string, k: nat, at: nat)
    requires p in passes && !p.Quoted? && IsBehind(p, left, k, at)
    ensures ScanAll(passes, left, right).Taken?
    decreases |passes|
  {
    var r := passes[0];
    NextScan(passes, left, right);
    if r == p {
      OwnPassTakes(p, left, right, k, at);
    } else if ScanPass(r, left, right).Kept? {
      var kept := ScanPass(r, left, right).left;
      var k2, at2 := StillBehind(r, p, left, right, k, at, kept);
      KeptTextIsTaken(passes[1..], p, kept, RunPass(r, right), k2, at2);
    }
  }

  lemma KeptIsClear(p: Pass, left: string, k: nat)
    requires !p.Quoted? && k <= |left| && IsPrefix(p, left[k..]) && HasNoBlank(left[k..])
    ensures IsClear(left, k)
  {
    PassHasShape(p);
    KeptHasNoQuote(p, left[k..]);
    assert forall j :: k <= j < |left| ==> left[k..][j - k] == left[j];
    assert left[k..] == left[k..|left|];
    PrefixHasNoBracket(ShapeOf(p), left, k, |left|);
  }

  // At the end of a text, behind a kept text without blanks, no plain value shows, whatever stands before it.
  lemma LastSecretDoesNotLeak(p: Pass, left: string, value: string, other: string, k: nat)
    requires IsValue(value) && IsValue(other)
    requires !p.Quoted? && k <= |left| && IsPrefix(p, left[k..]) && HasNoBlank(left[k..])
    ensures RedactLikelySecret(left + value) == RedactLikelySecret(left + other)
  {
    KeptIsClear(p, left, k);
    KeptTextIsTaken(PASSES, p, left, "", k, k);
    AroundNothing(left, value);
    AroundNothing(left, other);
    TakenIsAlike(left, value, other, "");
  }

  lemma AroundNothing(left: string, value: string)
    ensures Around(left, value, "") == left + value
  {
    assert value + "" == value;
  }
}
