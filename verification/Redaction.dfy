/** The redactor: the four passes in order, and what its result is like. */
module Redaction {
  import opened Replacing
  import opened RedactionScan
  import opened RedactionShapes

  function RunPass(p: Pass, x: string): string {
    PassHasShape(p);
    Run(ShapeOf(p), x)
  }

  function Redact(x: string): string {
    InOrder(RunPass, x)
  }

  function InOrder(run: (Pass, string) -> string, x: string): string {
    run(Assignment, run(Colon, run(Bearer, run(Quoted, x))))
  }

  // Every match of p in x, overlapping ones included, has the value [REDACTED].
  predicate HasNoResidue(p: Pass, x: string) {
    PassHasShape(p);
    IsCleanOf(ShapeOf(p), x)
  }

  lemma PassLeavesNoResidue(r: Pass, p: Pass, x: string)
    requires r == p || HasNoResidue(r, x)
    ensures HasNoResidue(r, RunPass(p, x))
  {
    PassHasShape(r);
    PassHasShape(p);
    if r != p {
      PassesAreSeparate(r, p);
    }
    PassIsClean(ShapeOf(r), ShapeOf(p), x);
  }

  // Passes that clean up after themselves and after no other leave everything clean.
  lemma EveryPassIsClean(run: (Pass, string) -> string, clean: (Pass, string) -> bool, x: string)
    requires forall r, p, y :: r == p || clean(r, y) ==> clean(r, run(p, y))
    ensures forall p: Pass :: clean(p, InOrder(run, x))
  {
    forall p: Pass ensures clean(p, InOrder(run, x)) {
      assert clean(Quoted, run(Quoted, x));
    }
  }

  lemma RedactLeavesNoResidue(x: string)
    ensures forall p: Pass :: HasNoResidue(p, Redact(x))
  {
    forall r, p, y | r == p || HasNoResidue(r, y) ensures HasNoResidue(r, RunPass(p, y)) {
      PassLeavesNoResidue(r, p, y);
    }
    EveryPassIsClean(RunPass, HasNoResidue, x);
  }

  lemma PassKeepsClean(p: Pass, x: string)
    requires HasNoResidue(p, x)
    ensures RunPass(p, x) == x
  {
    PassHasShape(p);
    CleanIsFixed(FinderOf(ShapeOf(p)), REDACTED, x);
  }

  // A text without residue is a fixed point of the redactor.
  lemma NoResidueIsFixed(x: string)
    requires forall p: Pass :: HasNoResidue(p, x)
    ensures Redact(x) == x
  {
    PassKeepsClean(Quoted, x);
    PassKeepsClean(Bearer, x);
    PassKeepsClean(Colon, x);
    PassKeepsClean(Assignment, x);
  }

  lemma RedactIsIdempotent(x: string)
    ensures Redact(Redact(x)) == Redact(x)
  {
    RedactLeavesNoResidue(x);
    NoResidueIsFixed(Redact(x));
  }
}
