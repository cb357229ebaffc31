/** Words without spaces, separators and brackets: the redactor keeps them, and makes nothing else into one. */
module RedactionWords {
  import opened Keywords
  import opened Replacing
  import opened RedactionScan
  import opened RedactionShapes
  import opened Redaction
  import opened RedactionPatterns

  predicate IsPlain(word: string) {
    forall i :: 0 <= i < |word| ==> !EndsPrefix(word[i]) && word[i] != '['
  }

  lemma NothingEndsHere(s: Shape, z: string)
    requires IsShape(s) && IsPlain(z)
    ensures FindValue(s, z).NotFound?
  {
    assert forall v :: 0 <= v <= |z| && s.prefix(z[..v]) ==> IsPrefixText(z[..v]);
    assert forall v :: 0 < v <= |z| ==> z[..v][v - 1] == z[v - 1];
  }

  lemma PlainIsClean(s: Shape, x: string)
    requires IsShape(s) && IsPlain(x)
    ensures IsCleanOf(s, x)
  {
    forall k | 0 <= k <= |x| ensures IsCleanHead(FinderOf(s), REDACTED, x[k..]) {
      NothingEndsHere(s, x[k..]);
    }
  }

  lemma PlainHasNoResidue(p: Pass, x: string)
    requires IsPlain(x)
    ensures HasNoResidue(p, x)
  {
    PassHasShape(p);
    PlainIsClean(ShapeOf(p), x);
  }

  // A plain value behind the kept text of a pattern is found, and no more of the text is kept.
  lemma PlainValueIsFound(s: Shape, left: string, secret: string)
    requires IsShape(s) && !s.quoted && s.prefix(left) && IsPlain(secret) && secret != ""
    ensures FindValue(s, left + secret) == Found(|left|, |left| + |secret|)
  {
    var x := left + secret;
    assert x[..|left|] == left;
    assert forall k :: |left| <= k < |x| ==> x[k] == secret[k - |left|];
    assert IsCandidate(s, x, |left|);
    PrefixEnds(s, x[..FindValue(s, x).start]);
    ValueEndIs(s, x, |left|, |x|);
  }

  lemma LedIsMarked(x: string, n: nat, t: string)
    requires IsLed(REDACTED, x, n, t)
    ensures n == |x| || '[' in t
  {
    if n < |x| {
      assert t[n] == t[n..n + |REDACTED|][0] == '[';
    }
  }

  // What a pass changes, it marks.
  lemma UnmarkedRun(s: Shape, x: string)
    requires IsShape(s) && '[' !in Run(s, x)
    ensures Run(s, x) == x
  {
    var find, t := FinderOf(s), Run(s, x);
    var n := Lead(find, x);
    LeadIsCopied(find, REDACTED, x);
    LedIsMarked(x, n, t);
  }

  lemma UnmarkedIsUnchanged(p: Pass, x: string)
    requires '[' !in RunPass(p, x)
    ensures RunPass(p, x) == x
  {
    PassHasShape(p);
    UnmarkedRun(ShapeOf(p), x);
  }

  lemma RedactedIsPlainWord(x: string, word: string)
    requires IsPlain(word)
    ensures RedactLikelySecret(x) == word <==> x == word
  {
    PatternsArePasses(x);
    if x == word {
      forall p: Pass ensures HasNoResidue(p, x) {
        PlainHasNoResidue(p, x);
      }
      NoResidueIsFixed(x);
    }
    if Redact(x) == word {
      var q := RunPass(Quoted, x);
      var b := RunPass(Bearer, q);
      UnmarkedIsUnchanged(Assignment, RunPass(Colon, b));
      UnmarkedIsUnchanged(Colon, b);
      UnmarkedIsUnchanged(Bearer, q);
      UnmarkedIsUnchanged(Quoted, x);
    }
  }
}
