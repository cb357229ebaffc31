/** Which first characters of a text the redactor leaves as they are, over all four passes. */
module RedactionPrefix {
  import opened Text
  import opened RedactionScan
  import opened RedactionShapes
  import opened Redaction
  import opened RedactionPatterns
  import opened RedactionPlain
  import opened RedactionSecrets
  import opened RedactionFront
  import opened RedactionMarks

  lemma PassTellsQuotes(p: Pass)
    ensures TellsQuotes(ShapeOf(p))
    ensures !p.Quoted? ==> forall c :: IsBlank(c) ==> !ShapeOf(p).isValue(c)
    ensures p != Assignment ==> EndsFirmly(ShapeOf(p))
  {
    forall y | ShapeOf(p).prefix(y) && y != "" ensures y[|y| - 1] == '"' <==> p.Quoted? {
      if !p.Quoted? {
        KeptHasNoQuote(p, y);
      }
    }
  }

  // The pass finds no value that starts among the first n characters and shows.
  ghost predicate IsCleanFor(p: Pass, x: string, n: nat) {
    PassHasShape(p);
    IsCleanBefore(FinderOf(ShapeOf(p)), x, n)
  }

  predicate IsFront(x: string, y: string, n: nat) {
    n <= |x| && n <= |y| && x[..n] == y[..n]
  }

  // The text is changed among its first n characters: there is a mark.
  ghost predicate IsMarkedBefore(x: string, y: string, n: nat) {
    exists v: nat, d: nat :: d < n && IsMarked(x, y, v, d)
  }

  ghost predicate IsFirmlyMarked(x: string, y: string, n: nat) {
    exists v: nat, d: nat :: d < n && IsMarked(x, y, v, d) && IsFirm(y, v, d)
  }

  lemma RunOnFront(s: Shape, x: string, y: string, n: nat)
    requires IsShape(s) && TellsQuotes(s) && IsFront(x, y, n)
    ensures IsCleanBefore(FinderOf(s), y, n) ==> IsFront(x, Run(s, y), n)
    ensures !IsCleanBefore(FinderOf(s), y, n) ==> IsMarkedBefore(x, Run(s, y), n)
    ensures !IsCleanBefore(FinderOf(s), y, n) && EndsFirmly(s) ==> IsFirmlyMarked(x, Run(s, y), n)
  {
    FrontOfRun(s, y, n);
    if IsCleanBefore(FinderOf(s), y, n) {
      assert x[..n] == y[..n] == Run(s, y)[..n];
    } else {
      var d := FirstDifference(y, Run(s, y), n);
      var v := FirstChange(s, y, d);
      SameBefore(x, y, n, d);
      ChangedIsMarked(s, x, y, Run(s, y), v, d);
    }
  }

  lemma SameBefore(x: string, y: string, n: nat, d: nat)
    requires IsFront(x, y, n) && d < n
    ensures x[..d] == y[..d] && x[d] == y[d]
  {
    assert x[..d] == x[..n][..d] && y[..d] == y[..n][..d] && x[d] == x[..n][d] && y[d] == y[..n][d];
  }

  lemma RunOnMark(s: Shape, x: string, y: string, n: nat)
    requires IsShape(s) && TellsQuotes(s) && !s.quoted && (forall c :: IsBlank(c) ==> !s.isValue(c))
    requires IsFirmlyMarked(x, y, n)
    ensures IsMarkedBefore(x, Run(s, y), n) && (EndsFirmly(s) ==> IsFirmlyMarked(x, Run(s, y), n))
  {
    var v: nat, d: nat :| d < n && IsMarked(x, y, v, d) && IsFirm(y, v, d);
    var v2, d2 := StillMarked(s, x, y, v, d);
  }

  // ---- Several passes ----

  predicate HoldsInTurn(run: (Pass, string) -> string, clean: (Pass, string) -> bool, passes: seq<Pass>, x: string) {
    passes != [] ==> clean(passes[0], x) && HoldsInTurn(run, clean, passes[1..], run(passes[0], x))
  }

  // In turn, no pass finds a value that starts among the first n characters and shows.
  ghost predicate IsCleanThrough(passes: seq<Pass>, x: string, n: nat) {
    HoldsInTurn(RunPass, (p, y) => IsCleanFor(p, y, n), passes, x)
  }

  predicate AreInOrder(passes: seq<Pass>) {
    && (forall i :: 0 < i < |passes| ==> passes[i] != Quoted)
    && (forall i :: 0 <= i < |passes| - 1 ==> passes[i] != Assignment)
  }

  lemma OrderOfRest(passes: seq<Pass>)
    requires AreInOrder(passes) && passes != []
    ensures AreInOrder(passes[1..]) && Quoted !in passes[1..] && (passes[0] == Assignment ==> passes[1..] == [])
  {
  }

  lemma PassOnMark(p: Pass, x: string, y: string, n: nat)
    requires !p.Quoted? && IsFirmlyMarked(x, y, n)
    ensures IsMarkedBefore(x, RunPass(p, y), n) && (p != Assignment ==> IsFirmlyMarked(x, RunPass(p, y), n))
  {
    PassHasShape(p);
    PassTellsQuotes(p);
    RunOnMark(ShapeOf(p), x, y, n);
  }

  lemma PassOnFront(p: Pass, x: string, y: string, n: nat)
    requires IsFront(x, y, n)
    ensures IsCleanFor(p, y, n) ==> IsFront(x, RunPass(p, y), n)
    ensures !IsCleanFor(p, y, n) ==> IsMarkedBefore(x, RunPass(p, y), n)
    ensures !IsCleanFor(p, y, n) && p != Assignment ==> IsFirmlyMarked(x, RunPass(p, y), n)
  {
    PassHasShape(p);
    PassTellsQuotes(p);
    RunOnFront(ShapeOf(p), x, y, n);
  }

  lemma FirmIsMarked(x: string, y: string, n: nat)
    requires IsFirmlyMarked(x, y, n)
    ensures IsMarkedBefore(x, y, n)
  {
  }

  // What the passes do to a text that is still as it was, or marked.
  ghost predicate IsKeptOrMarked(run: (Pass, string) -> string, clean: (Pass, string) -> bool, front: string -> bool,
                                 marked: string -> bool, firm: string -> bool)
  {
    && (forall p, y :: front(y) && clean(p, y) ==> front(run(p, y)))
    && (forall p, y :: (front(y) && !clean(p, y)) || (!p.Quoted? && firm(y)) ==>
          marked(run(p, y)) && (p != Assignment ==> firm(run(p, y))))
    && (forall y :: firm(y) ==> marked(y))
  }

  lemma {:induction false} MarksThrough(run: (Pass, string) -> string, clean: (Pass, string) -> bool,
                                        front: string -> bool, marked: string -> bool, firm: string -> bool,
                                        passes: seq<Pass>, y: string)
    requires IsKeptOrMarked(run, clean, front, marked, firm) && AreInOrder(passes) && Quoted !in passes && firm(y)
    ensures marked(InTurn(run, passes, y))
    decreases |passes|
  {
    if passes != [] {
      OrderOfRest(passes);
      if passes[0] != Assignment {
        MarksThrough(run, clean, front, marked, firm, passes[1..], run(passes[0], y));
      }
    }
  }

  lemma {:induction false} FrontThrough(run: (Pass, string) -> string, clean: (Pass, string) -> bool,
                                        front: string -> bool, marked: string -> bool, firm: string -> bool,
                                        passes: seq<Pass>, y: string)
    requires IsKeptOrMarked(run, clean, front, marked, firm) && AreInOrder(passes) && front(y)
    ensures if HoldsInTurn(run, clean, passes, y) then front(InTurn(run, passes, y))
            else marked(InTurn(run, passes, y))
    decreases |passes|
  {
    if passes != [] {
      OrderOfRest(passes);
      if clean(passes[0], y) {
        FrontThrough(run, clean, front, marked, firm, passes[1..], run(passes[0], y));
      } else if passes[0] != Assignment {
        MarksThrough(run, clean, front, marked, firm, passes[1..], run(passes[0], y));
      }
    }
  }

  lemma PassesKeepOrMark(x: string, n: nat)
    ensures IsKeptOrMarked(RunPass, (p, y) => IsCleanFor(p, y, n), y => IsFront(x, y, n),
                           y => IsMarkedBefore(x, y, n), y => IsFirmlyMarked(x, y, n))
  {
    forall p, y | IsFront(x, y, n)
      ensures IsCleanFor(p, y, n) ==> IsFront(x, RunPass(p, y), n)
      ensures !IsCleanFor(p, y, n) ==>
                IsMarkedBefore(x, RunPass(p, y), n) && (p != Assignment ==> IsFirmlyMarked(x, RunPass(p, y), n))
    {
      PassOnFront(p, x, y, n);
    }
    forall p: Pass, y | !p.Quoted? && IsFirmlyMarked(x, y, n)
      ensures IsMarkedBefore(x, RunPass(p, y), n) && (p != Assignment ==> IsFirmlyMarked(x, RunPass(p, y), n))
    {
      PassOnMark(p, x, y, n);
    }
    forall y | IsFirmlyMarked(x, y, n) ensures IsMarkedBefore(x, y, n) {
      FirmIsMarked(x, y, n);
    }
  }

  lemma PassesOnFront(passes: seq<Pass>, x: string, n: nat)
    requires n <= |x| && AreInOrder(passes)
    ensures if IsCleanThrough(passes, x, n) then IsFront(x, RunAll(passes, x), n)
            else IsMarkedBefore(x, RunAll(passes, x), n)
  {
    PassesKeepOrMark(x, n);
    FrontThrough(RunPass, (p, y) => IsCleanFor(p, y, n), y => IsFront(x, y, n),
                 y => IsMarkedBefore(x, y, n), y => IsFirmlyMarked(x, y, n), passes, x);
  }

  lemma MarkedIsNotFront(x: string, y: string, n: nat)
    requires n <= |x| && IsMarkedBefore(x, y, n)
    ensures !(x[..n] <= y)
  {
    var v: nat, d: nat :| d < n && IsMarked(x, y, v, d);
    assert x[..n][d] == x[d];
  }

  lemma FrontOfPasses(passes: seq<Pass>, x: string, y: string, n: nat)
    requires n <= |x| && AreInOrder(passes) && y == RunAll(passes, x)
    ensures x[..n] <= y <==> IsCleanThrough(passes, x, n)
    ensures !(x[..n] <= y) ==> IsMarkedBefore(x, y, n)
  {
    PassesOnFront(passes, x, n);
    if IsMarkedBefore(x, y, n) {
      MarkedIsNotFront(x, y, n);
    }
  }

  lemma PassesAreInOrder()
    ensures AreInOrder(PASSES)
  {
  }

  // The redactor leaves the first n characters as they are exactly when, in turn, no pass finds a value that starts
  // among them and shows; otherwise there is a mark among them.
  lemma FrontOfRedacted(x: string, n: nat)
    requires n <= |x|
    ensures x[..n] <= RedactLikelySecret(x) <==> IsCleanThrough(PASSES, x, n)
    ensures !(x[..n] <= RedactLikelySecret(x)) ==> IsMarkedBefore(x, RedactLikelySecret(x), n)
  {
    RedactIsRunAll(x);
    PassesAreInOrder();
    FrontOfPasses(PASSES, x, RedactLikelySecret(x), n);
  }
}
