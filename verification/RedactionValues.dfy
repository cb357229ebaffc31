/** One pass over a text with a value in it, by a scan of the text before the value: either a match takes the value,
  * and then nothing of it is left, or the value is copied and only what stands before and behind it is changed.
  */
module RedactionValues {
  import opened Keywords
  import opened Splitting
  import opened Wrappers
  import opened RedactionScan
  import opened RedactionWords

  function Around(left: string, value: string, right: string): string {
    left + (value + right)
  }

  predicate IsValue(value: string) {
    value != "" && IsPlain(value)
  }

  // No kept text reaches from the value, or from before it, into what follows.
  ghost predicate NoneCrosses(s: Shape, left: string, value: string, right: string) {
    forall i: nat, j: nat :: i < |left| + |value| < j <= |Around(left, value, right)| ==>
      !s.prefix(Around(left, value, right)[i..j])
  }

  lemma AroundIs(left: string, value: string, right: string)
    ensures var x, n, m := Around(left, value, right), |left|, |left| + |value|;
            && |x| == m + |right| && x[..n] == left && x[n..] == value + right && x[m..] == right
            && (forall k :: 0 <= k < n ==> x[k] == left[k])
            && (forall k :: n <= k < m ==> x[k] == value[k - n])
            && (forall k :: m <= k < |x| ==> x[k] == right[k - m])
            && (forall v :: 0 <= v <= n ==> x[..v] == left[..v] && x[v..] == Around(left[v..], value, right))
  {
  }

  // ---- The scan ----

  // A value can start at v in left, or behind it.
  predicate Opens(s: Shape, left: string, right: string, v: nat) {
    && v <= |left| && s.prefix(left[..v])
    && if s.quoted then '"' in left[v..] || '"' in right else v == |left| || s.isValue(left[v])
  }

  // The last place up to a limit where a value can start.
  function LastOpen(s: Shape, left: string, right: string, limit: nat): (open: Option<nat>)
    requires limit <= |left|
    ensures open.Some? ==> open.value <= limit && Opens(s, left, right, open.value)
    ensures open.Some? ==> forall v :: open.value < v <= limit ==> !Opens(s, left, right, v)
    ensures open.None? ==> forall v :: 0 <= v <= limit ==> !Opens(s, left, right, v)
  {
    if Opens(s, left, right, limit) then Some(limit)
    else if limit == 0 then None
    else LastOpen(s, left, right, limit - 1)
  }

  // Taken: the whole result, with no value in it. Kept: what stands before the value, which is copied.
  datatype Scanned = Taken(text: string) | Kept(left: string)

  function Prepend(head: string, scanned: Scanned): Scanned {
    match scanned
    case Taken(text) => Taken(head + text)
    case Kept(left) => Kept(head + left)
  }

  // A pass over left, with the value and right behind it, without a look at the value.
  function Scan(s: Shape, left: string, right: string): (scanned: Scanned)
    requires IsShape(s)
    decreases |left|
  {
    PrefixIsNotEmpty(s);
    var open := LastOpen(s, left, right, |left|);
    if open.None? then if left == "" then Kept("") else Prepend([left[0]], Scan(s, left[1..], right))
    else
      var e := ValueEnd(s, left, open.value);
      if e == |left| then Taken(left[..open.value] + (REDACTED + Run(s, right[ValueEnd(s, right, 0)..])))
      else Prepend(left[..open.value] + REDACTED, Scan(s, left[e..], right))
  }

  lemma PrefixIsNotEmpty(s: Shape)
    requires IsShape(s)
    ensures !s.prefix("") && forall y: string :: !s.prefix(y[..0])
  {
    assert forall y: string :: y[..0] == "";
  }

  // The result of the pass for a value, from the scan and what becomes of right.
  function Shown(scanned: Scanned, value: string, right: string): string {
    match scanned
    case Taken(text) => text
    case Kept(left) => Around(left, value, right)
  }

  // ---- Values that the scan need not look at ----

  // The value can be taken as a whole, and no kept text at the head of the text reaches into it.
  ghost predicate IsInert(s: Shape, left: string, value: string, right: string) {
    && (forall k :: 0 <= k < |value| ==> s.isValue(value[k]) && value[k] != '"')
    && (!s.quoted ==> value != "")
    && forall v :: |left| < v <= |Around(left, value, right)| ==> !s.prefix(Around(left, value, right)[..v])
  }

  lemma PlainIsInert(s: Shape, left: string, value: string, right: string)
    requires IsShape(s) && IsValue(value) && NoneCrosses(s, left, value, right)
    ensures IsInert(s, left, value, right)
  {
    var x := Around(left, value, right);
    AroundIs(left, value, right);
    forall v | |left| < v <= |x| ensures !s.prefix(x[..v]) {
      assert x[..v] == x[0..v];
      if v <= |left| + |value| {
        PlainEndsNothing(s, x, v);
      }
    }
  }

  lemma PlainEndsNothing(s: Shape, x: string, v: nat)
    requires IsShape(s) && 0 < v <= |x| && !EndsPrefix(x[v - 1])
    ensures !s.prefix(x[..v])
  {
    if s.prefix(x[..v]) {
      PrefixEnds(s, x[..v]);
    }
  }

  lemma QuoteInParts(left: string, value: string, right: string, v: nat)
    requires v <= |left| && '"' !in value
    ensures '"' in Around(left, value, right)[v..] <==> '"' in left[v..] || '"' in right
  {
    AroundIs(left, value, right);
    assert Around(left, value, right)[v..] == left[v..] + (value + right);
  }

  lemma CandidateOpens(s: Shape, left: string, value: string, right: string, v: nat)
    requires IsInert(s, left, value, right)
    ensures IsCandidate(s, Around(left, value, right), v) <==> Opens(s, left, right, v)
  {
    AroundIs(left, value, right);
    if v <= |left| {
      QuoteInParts(left, value, right, v);
    }
  }

  lemma FoundIsLastOpen(s: Shape, left: string, value: string, right: string)
    requires IsInert(s, left, value, right)
    ensures var r, open := FindValue(s, Around(left, value, right)), LastOpen(s, left, right, |left|);
            r.Found? == open.Some? && (r.Found? ==> r.start == open.value)
  {
    forall v: nat ensures IsCandidate(s, Around(left, value, right), v) <==> Opens(s, left, right, v) {
      CandidateOpens(s, left, value, right, v);
    }
  }

  // Where the value that starts at v in left ends: in left ...
  lemma EndInLeft(s: Shape, left: string, value: string, right: string, v: nat)
    requires v <= |left| && ValueEnd(s, left, v) < |left|
    ensures ValueEnd(s, Around(left, value, right), v) == ValueEnd(s, left, v)
  {
    AroundIs(left, value, right);
    ValueEndIs(s, Around(left, value, right), v, ValueEnd(s, left, v));
  }

  // ... or behind the other value, which it takes.
  lemma EndInRight(s: Shape, left: string, value: string, right: string, v: nat)
    requires v <= |left| && ValueEnd(s, left, v) == |left| && forall k :: 0 <= k < |value| ==> s.isValue(value[k])
    ensures ValueEnd(s, Around(left, value, right), v) == |left| + |value| + ValueEnd(s, right, 0)
  {
    AroundIs(left, value, right);
    ValueEndIs(s, Around(left, value, right), v, |left| + |value| + ValueEnd(s, right, 0));
  }

  // ---- One step of a pass ----

  lemma RestOfRight(left: string, value: string, right: string, g: nat)
    requires g <= |right|
    ensures var x, m := Around(left, value, right), |left| + |value|;
            |x| - |right[g..]| == m + g && x[m + g..] == right[g..]
  {
  }

  lemma PartBefore(left: string, value: string, right: string, v: nat)
    requires v <= |left|
    ensures Around(left, value, right)[..v] == left[..v]
  {
  }

  lemma TakenIsReplaced(s: Shape, left: string, value: string, right: string, v: nat)
    requires IsShape(s) && IsInert(s, left, value, right)
    requires v <= |left| && ValueEnd(s, left, v) == |left|
    requires FindValue(s, Around(left, value, right)).Found? && FindValue(s, Around(left, value, right)).start == v
    ensures Run(s, Around(left, value, right)) == left[..v] + (REDACTED + Run(s, right[ValueEnd(s, right, 0)..]))
  {
    var x := Around(left, value, right);
    var g := ValueEnd(s, right, 0);
    EndInRight(s, left, value, right, v);
    RestOfRight(left, value, right, g);
    PartBefore(left, value, right, v);
    RunReplaces(s, x, left[..v], right[g..]);
  }

  lemma EarlierIsReplaced(s: Shape, left: string, value: string, right: string, v: nat, e: nat)
    requires IsShape(s) && v <= e < |left| && ValueEnd(s, left, v) == e
    requires FindValue(s, Around(left, value, right)).Found? && FindValue(s, Around(left, value, right)).start == v
    ensures Run(s, Around(left, value, right)) == (left[..v] + REDACTED) + Run(s, Around(left[e..], value, right))
  {
    var x := Around(left, value, right);
    AroundIs(left, value, right);
    EndInLeft(s, left, value, right, v);
    assert x[|x| - |x[e..]|..] == x[e..];
    RunReplaces(s, x, left[..v], x[e..]);
    Associate(left[..v], REDACTED, Run(s, x[e..]));
  }

  lemma CopiedStep(s: Shape, left: string, value: string, right: string)
    requires IsShape(s) && left != "" && FindValue(s, Around(left, value, right)).NotFound?
    ensures Run(s, Around(left, value, right)) == [left[0]] + Run(s, Around(left[1..], value, right))
  {
    AroundIs(left, value, right);
    RunCopies(s, Around(left, value, right), Around(left[1..], value, right));
  }

  lemma Longer(head: string, left: string, value: string, right: string)
    ensures head + Around(left, value, right) == Around(head + left, value, right)
  {
    Associate(head, left, value + right);
  }

  lemma ShownLater(head: string, scanned: Scanned, value: string, right: string)
    ensures Shown(Prepend(head, scanned), value, right) == head + Shown(scanned, value, right)
  {
    if scanned.Kept? {
      Longer(head, scanned.left, value, right);
    }
  }

  // ---- A plain value ----

  lemma CrossesSuffix(s: Shape, left: string, value: string, right: string, e: nat)
    requires NoneCrosses(s, left, value, right) && e <= |left|
    ensures NoneCrosses(s, left[e..], value, right)
  {
    var x, y := Around(left, value, right), Around(left[e..], value, right);
    AroundIs(left, value, right);
    forall i: nat, j: nat | i < |left[e..]| + |value| < j <= |y| ensures !s.prefix(y[i..j]) {
      assert y == x[e..] && y[i..j] == x[e + i..e + j];
    }
  }

  ghost predicate NoneLeaves(s: Shape, value: string, right: string) {
    forall i: nat, j: nat :: i < |value| < j <= |value + right| ==> !s.prefix((value + right)[i..j])
  }

  lemma NoneLeavesRest(s: Shape, value: string, right: string)
    requires NoneLeaves(s, value, right) && value != ""
    ensures NoneLeaves(s, value[1..], right) && (value + right)[1..] == value[1..] + right
  {
    var x, y := value + right, value[1..] + right;
    forall i: nat, j: nat | i < |value[1..]| < j <= |y| ensures !s.prefix(y[i..j]) {
      assert y[i..j] == x[i + 1..j + 1];
    }
  }

  lemma NothingInValue(s: Shape, value: string, right: string)
    requires IsShape(s) && IsPlain(value) && value != "" && NoneLeaves(s, value, right)
    ensures FindValue(s, value + right).NotFound?
  {
    var x := value + right;
    var r := FindValue(s, x);
    if r.Found? {
      assert x[..r.start] == x[0..r.start];
      PrefixEnds(s, x[..r.start]);
    }
  }

  lemma FirstIsCopied(value: string, more: string)
    requires value != ""
    ensures [value[0]] + (value[1..] + more) == value + more
  {
  }

  lemma {:induction false} ValueIsCopied(s: Shape, value: string, right: string)
    requires IsShape(s) && IsPlain(value) && NoneLeaves(s, value, right)
    ensures Run(s, value + right) == value + Run(s, right)
    decreases |value|
  {
    if value == "" {
      assert value + right == right && value + Run(s, right) == Run(s, right);
    } else {
      NothingInValue(s, value, right);
      NoneLeavesRest(s, value, right);
      RunCopies(s, value + right, value[1..] + right);
      ValueIsCopied(s, value[1..], right);
      FirstIsCopied(value, Run(s, right));
    }
  }

  lemma NothingBefore(s: Shape, left: string, value: string, right: string)
    requires IsShape(s) && IsPlain(value) && left == "" && NoneCrosses(s, left, value, right)
    ensures Run(s, Around(left, value, right)) == Around(left, value, Run(s, right))
  {
    assert Around(left, value, right) == value + right;
    assert Around(left, value, Run(s, right)) == value + Run(s, right);
    ValueIsCopied(s, value, right);
  }

  // The scan tells what the pass makes of any plain value.
  lemma {:induction false} RunIsScan(s: Shape, left: string, value: string, right: string)
    requires IsShape(s) && IsValue(value) && NoneCrosses(s, left, value, right)
    ensures Run(s, Around(left, value, right)) == Shown(Scan(s, left, right), value, Run(s, right))
    decreases |left|
  {
    var open := LastOpen(s, left, right, |left|);
    PrefixIsNotEmpty(s);
    PlainIsInert(s, left, value, right);
    FoundIsLastOpen(s, left, value, right);
    if left == "" {
      NothingBefore(s, left, value, right);
    } else if open.None? {
      CrossesSuffix(s, left, value, right, 1);
      CopiedStep(s, left, value, right);
      RunIsScan(s, left[1..], value, right);
      ShownLater([left[0]], Scan(s, left[1..], right), value, Run(s, right));
    } else {
      var e := ValueEnd(s, left, open.value);
      if e == |left| {
        TakenIsReplaced(s, left, value, right, open.value);
      } else {
        CrossesSuffix(s, left, value, right, e);
        EarlierIsReplaced(s, left, value, right, open.value, e);
        RunIsScan(s, left[e..], value, right);
        ShownLater(left[..open.value] + REDACTED, Scan(s, left[e..], right), value, Run(s, right));
      }
    }
  }

  // ---- What a pass keeps of the text before the value ----

  function Last(text: string, n: nat): string
    requires n <= |text|
  {
    text[|text| - n..]
  }

  // The last n characters of both are the same, and a bracket is in front of them in the new text.
  predicate IsTrailOf(left: string, kept: string, n: nat) {
    n <= |left| && n < |kept| && Last(kept, n) == Last(left, n) && IsBracket(kept[|kept| - 1 - n])
  }

  // What is at the end of the new text, behind its last mark, was at the end of the old one.
  ghost predicate IsTrail(left: string, kept: string) {
    kept == left || exists n: nat :: IsTrailOf(left, kept, n)
  }

  lemma TrailAfterCopying(c: char, left: string, kept: string)
    requires left != "" && left[0] == c && IsTrail(left[1..], kept)
    ensures IsTrail(left, [c] + kept)
  {
    if kept != left[1..] {
      var n: nat :| IsTrailOf(left[1..], kept, n);
      assert Last([c] + kept, n) == Last(kept, n) && Last(left, n) == Last(left[1..], n);
      assert IsTrailOf(left, [c] + kept, n);
    }
  }

  lemma TrailAfterReplacing(left: string, head: string, e: nat, kept: string)
    requires e <= |left| && IsTrail(left[e..], kept)
    ensures IsTrail(left, head + REDACTED + kept)
  {
    var longer := head + REDACTED + kept;
    if kept == left[e..] {
      assert longer[|longer| - 1 - |kept|] == REDACTED[9];
      assert IsTrailOf(left, longer, |kept|);
    } else {
      var n: nat :| IsTrailOf(left[e..], kept, n);
      assert Last(longer, n) == Last(kept, n) && Last(left, n) == Last(left[e..], n);
      assert longer[|longer| - 1 - n] == kept[|kept| - 1 - n];
      assert IsTrailOf(left, longer, n);
    }
  }

  lemma {:induction false} ScanKeepsTrail(s: Shape, left: string, right: string)
    requires IsShape(s)
    ensures Scan(s, left, right).Kept? ==> IsTrail(left, Scan(s, left, right).left)
    decreases |left|
  {
    var open := LastOpen(s, left, right, |left|);
    PrefixIsNotEmpty(s);
    if open.None? && left != "" {
      ScanKeepsTrail(s, left[1..], right);
      if Scan(s, left[1..], right).Kept? {
        TrailAfterCopying(left[0], left, Scan(s, left[1..], right).left);
      }
    } else if open.Some? && ValueEnd(s, left, open.value) < |left| {
      var e := ValueEnd(s, left, open.value);
      ScanKeepsTrail(s, left[e..], right);
      if Scan(s, left[e..], right).Kept? {
        TrailAfterReplacing(left, left[..open.value], e, Scan(s, left[e..], right).left);
      }
    }
  }
}
