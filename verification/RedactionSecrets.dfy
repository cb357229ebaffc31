/** What does not get through the redactor: a quoted secret, whatever it contains, exactly when no quote before it is
  * still open.
  */
module RedactionSecrets {
  import opened Text
  import opened Keywords
  import opened Replacing
  import opened Splitting
  import opened Wrappers
  import opened RedactionScan
  import opened RedactionShapes
  import opened Redaction
  import opened RedactionPatterns
  import opened RedactionPlain
  import opened RedactionValues

  ghost predicate EndsInOnlyQuote(s: Shape) {
    forall y :: s.prefix(y) ==> y != "" && y[|y| - 1] == '"' && '"' !in y[..|y| - 1]
  }

  // A text with a quoted secret after left.
  function Quoting(left: string, secret: string, right: string): string {
    left + ("\"" + (secret + ("\"" + right)))
  }

  lemma QuotingIsAround(left: string, secret: string, right: string)
    ensures Quoting(left, secret, right) == Around(left + "\"", secret, "\"" + right)
  {
  }

  // ---- The quoted pass over any secret without a quote ----

  // A text that ends in an open quote, and one that starts with a quote.
  predicate IsOpen(left: string) {
    left != "" && left[|left| - 1] == '"'
  }

  predicate IsClosing(right: string) {
    right != "" && right[0] == '"'
  }

  lemma QuotedIsInert(s: Shape, left: string, secret: string, right: string)
    requires IsShape(s) && s.quoted && EndsInOnlyQuote(s) && IsOpen(left) && '"' !in secret
    ensures IsInert(s, left, secret, right)
  {
    var x := Around(left, secret, right);
    AroundIs(left, secret, right);
    forall v | |left| < v <= |x| ensures !s.prefix(x[..v]) {
      assert x[..v][..v - 1][|left| - 1] == '"';
    }
  }

  // What the pass makes of the text: the secret is taken, or the text from its opening quote on is looked at anew.
  function ShownOpen(scanned: Scanned, anew: string): string
    requires scanned.Kept? ==> IsOpen(scanned.left)
  {
    match scanned
    case Taken(text) => text
    case Kept(left) => left[..|left| - 1] + anew
  }

  lemma InitLater(head: string, left: string)
    requires IsOpen(left)
    ensures IsOpen(head + left) && (head + left)[..|head + left| - 1] == head + left[..|left| - 1]
  {
  }

  lemma OpenLater(head: string, scanned: Scanned, anew: string)
    requires scanned.Kept? ==> IsOpen(scanned.left)
    ensures Prepend(head, scanned).Kept? ==> IsOpen(Prepend(head, scanned).left)
    ensures ShownOpen(Prepend(head, scanned), anew) == head + ShownOpen(scanned, anew)
  {
    if scanned.Kept? {
      InitLater(head, scanned.left);
      Associate(head, scanned.left[..|scanned.left| - 1], anew);
    }
  }

  lemma OneIsNotKept(s: Shape, left: string, right: string)
    requires IsShape(s) && |left| == 1
    ensures LastOpen(s, left, right, 1) == None
  {
    PrefixIsNotEmpty(s);
    assert forall y :: s.prefix(y) ==> IsPrefixText(y);
  }

  lemma QuoteAlone(s: Shape, left: string, right: string)
    requires IsShape(s) && |left| == 1
    ensures Scan(s, left, right) == Kept(left)
  {
    OneIsNotKept(s, left, right);
    PrefixIsNotEmpty(s);
    assert left[1..] == "" && [left[0]] == left;
    assert Scan(s, "", right) == Kept("");
  }

  lemma {:induction false} QuotedRunIsScan(s: Shape, left: string, secret: string, right: string)
    requires IsShape(s) && s.quoted && EndsInOnlyQuote(s) && IsOpen(left) && '"' !in secret && IsClosing(right)
    ensures Scan(s, left, right).Kept? ==> IsOpen(Scan(s, left, right).left)
    ensures Run(s, Around(left, secret, right)) ==
            ShownOpen(Scan(s, left, right), Run(s, Around("\"", secret, right)))
    decreases |left|
  {
    var open, anew := LastOpen(s, left, right, |left|), Run(s, Around("\"", secret, right));
    PrefixIsNotEmpty(s);
    QuotedIsInert(s, left, secret, right);
    FoundIsLastOpen(s, left, secret, right);
    if |left| == 1 {
      assert left == "\"";
      QuoteAlone(s, left, right);
    } else if open.None? {
      CopiedStep(s, left, secret, right);
      QuotedRunIsScan(s, left[1..], secret, right);
      OpenLater([left[0]], Scan(s, left[1..], right), anew);
    } else {
      var e := ValueEnd(s, left, open.value);
      if e == |left| {
        TakenIsReplaced(s, left, secret, right, open.value);
      } else {
        EarlierIsReplaced(s, left, secret, right, open.value, e);
        QuotedRunIsScan(s, left[e..], secret, right);
        OpenLater(left[..open.value] + REDACTED, Scan(s, left[e..], right), anew);
      }
    }
  }

  lemma ClosedParts(kept: string, inner: string, rest: string)
    requires '"' !in inner
    ensures var left, e := kept + (inner + ("\"" + rest)), |kept| + |inner|;
            && e < |left| && left[..|kept|] == kept && left[e..] == "\"" + rest && left[e] == '"'
            && (forall k :: |kept| <= k < e ==> left[k] != '"')
            && (kept != "" ==> left[|kept| - 1] == kept[|kept| - 1])
  {
    var left := kept + (inner + ("\"" + rest));
    assert forall k :: |kept| <= k < |kept| + |inner| ==> left[k] == inner[k - |kept|];
  }

  lemma OnlyOpen(s: Shape, left: string, v: nat, right: string)
    requires IsShape(s) && EndsInOnlyQuote(s) && s.quoted && v <= |left| && s.prefix(left[..v])
    requires '"' in left[v..] || '"' in right
    ensures LastOpen(s, left, right, |left|) == Some(v)
  {
    assert left[..v] != "" && left[v - 1] == left[..v][v - 1];
    assert forall w :: v < w <= |left| ==> left[..w][..w - 1][v - 1] == left[v - 1];
    assert Opens(s, left, right, v);
  }

  // A kept text takes the secret behind it.
  lemma KeptTextTakes(s: Shape, kept: string, right: string)
    requires IsShape(s) && s.quoted && EndsInOnlyQuote(s) && s.prefix(kept) && IsClosing(right)
    ensures Scan(s, kept, right) == Taken(kept + (REDACTED + Run(s, right)))
  {
    assert kept[..|kept|] == kept && right[0..] == right;
    OnlyOpen(s, kept, |kept|, right);
  }

  lemma ScanGoesOn(s: Shape, left: string, right: string, v: nat, e: nat)
    requires IsShape(s) && LastOpen(s, left, right, |left|) == Some(v) && ValueEnd(s, left, v) == e < |left|
    ensures Scan(s, left, right) == Prepend(left[..v] + REDACTED, Scan(s, left[e..], right))
  {
  }

  lemma ClosedEnds(s: Shape, left: string, kept: string, inner: string, rest: string, e: nat, right: string)
    requires IsShape(s) && s.quoted && EndsInOnlyQuote(s) && s.prefix(kept) && '"' !in inner
    requires left == kept + (inner + ("\"" + rest)) && e == |kept| + |inner|
    ensures LastOpen(s, left, right, |left|) == Some(|kept|) && ValueEnd(s, left, |kept|) == e < |left|
    ensures left[..|kept|] == kept && left[e..] == "\"" + rest
  {
    ClosedParts(kept, inner, rest);
    assert left[|kept|..][|inner|] == '"';
    OnlyOpen(s, left, |kept|, right);
    ValueEndIs(s, left, |kept|, e);
  }

  // A quoted assignment that is closed before the secret does not matter: the scan goes on at its closing quote.
  lemma ClosedIsPassed(s: Shape, left: string, kept: string, inner: string, rest: string, right: string)
    requires IsShape(s) && s.quoted && EndsInOnlyQuote(s) && s.prefix(kept) && '"' !in inner
    requires left == kept + (inner + ("\"" + rest))
    ensures Scan(s, left, right) == Prepend(kept + REDACTED, Scan(s, "\"" + rest, right))
  {
    var e := |kept| + |inner|;
    ClosedEnds(s, left, kept, inner, rest, e, right);
    ScanGoesOn(s, left, right, |kept|, e);
  }

  lemma KeywordHasNoQuote(x: string, k: nat)
    requires k < KeywordLength(x)
    ensures x[k] != '"'
  {
    var word := FirstWord(x, KEYWORDS);
    KeywordsAreStarting();
    FirstWordIsStarting(x, KEYWORDS);
    QuietAt(word, 0, k);
    assert Lower(x[0 + k]) == word[k];
  }

  lemma StemHasNoQuote(p: Pass, y: string)
    requires !p.Bearer? && IsStemAndSpaces(p, y)
    ensures '"' !in y
  {
    forall k | 0 <= k < |y| ensures y[k] != '"' {
      if k < KeywordLength(y) {
        KeywordHasNoQuote(y, k);
      }
    }
  }

  lemma QuotedEndsInOnlyQuote()
    ensures EndsInOnlyQuote(ShapeOf(Quoted))
  {
    forall y | ShapeOf(Quoted).prefix(y) ensures y != "" && y[|y| - 1] == '"' && '"' !in y[..|y| - 1] {
      StemHasNoQuote(Quoted, y[..|y| - 1]);
    }
  }

  lemma WordHasNoQuote(word: string, x: string, i: nat)
    requires HasWordAt(word, x, i) && IsQuietWord(word)
    ensures forall k :: i <= k < i + |word| ==> x[k] != '"'
  {
    forall k | i <= k < i + |word| ensures x[k] != '"' {
      QuietAt(word, 0, k - i);
      assert Lower(x[i + (k - i)]) == word[k - i];
    }
  }

  lemma BearerHasNoQuote(y: string)
    requires IsStemAndSpaces(Bearer, y)
    ensures '"' !in y
  {
    BearerWordsAreQuiet();
    WordHasNoQuote("authorization", y, 0);
    WordHasNoQuote("bearer", y, SpaceEnd(y, AuthorizationStem(y)));
  }

  lemma KeptHasNoQuote(p: Pass, y: string)
    requires !p.Quoted? && IsPrefix(p, y)
    ensures '"' !in y
  {
    if p.Bearer? {
      BearerHasNoQuote(y);
    } else {
      StemHasNoQuote(p, y);
    }
  }

  // In a kept text a quote comes last, behind a space or a separator.
  lemma QuoteInKept(q: Pass, y: string, m: nat)
    requires IsPrefix(q, y) && m < |y| && y[m] == '"'
    ensures 0 < m == |y| - 1 && EndsPrefix(y[m - 1])
  {
    if q.Quoted? {
      var z := y[..|y| - 1];
      StemHasNoQuote(Quoted, z);
      StemAndSpacesAreText(Quoted, z);
      assert forall k :: 0 <= k < |z| ==> z[k] == y[k];
    } else {
      KeptHasNoQuote(q, y);
    }
  }

  // ---- Two secrets that show when a quote before them is open ----

  lemma {:induction false} QuietIsCopied(s: Shape, quiet: string, rest: string)
    requires IsShape(s) && IsQuietBefore(quiet, rest)
    ensures Run(s, quiet + rest) == quiet + Run(s, rest)
    decreases |quiet|
  {
    if quiet == "" {
      assert quiet + rest == rest && quiet + Run(s, rest) == Run(s, rest);
    } else {
      var x, y := quiet + rest, quiet[1..] + rest;
      assert y == x[1..];
      assert forall k :: 0 <= k < |y| ==> y[k] == x[k + 1];
      NothingStarts(s, x);
      RunCopies(s, x, y);
      QuietIsCopied(s, quiet[1..], rest);
      FirstIsCopied(quiet, Run(s, rest));
    }
  }

  predicate IsWalled(text: string) {
    2 <= |text| && text[|text| - 2] == ']' && text[|text| - 1] == ' '
  }

  // No unquoted value reaches over a bracket and a space.
  lemma {:induction false} WallStays(s: Shape, left: string, right: string)
    requires IsShape(s) && !s.quoted && !s.isValue(' ') && (IsWalled(left) || left == " ")
    ensures Scan(s, left, right).Kept? && IsStillWalled(left, Scan(s, left, right).left)
    decreases |left|
  {
    var open := LastOpen(s, left, right, |left|);
    PrefixIsNotEmpty(s);
    WallIsNotKept(s, left);
    if open.None? {
      if |left| > 1 {
        WallStays(s, left[1..], right);
      } else {
        assert left[1..] == "";
      }
    } else {
      var v, e := open.value, ValueEnd(s, left, open.value);
      assert e < |left|;
      WallStays(s, left[e..], right);
      WallBehindMark(left, left[..v], e, Scan(s, left[e..], right).left);
    }
  }

  predicate IsStillWalled(left: string, kept: string) {
    if left == " " then kept == " " else IsWalled(kept)
  }

  lemma WallBehindMark(left: string, head: string, e: nat, kept: string)
    requires 0 < e < |left| && IsWalled(left) && IsStillWalled(left[e..], kept)
    ensures IsStillWalled(left, head + REDACTED + kept)
  {
    assert kept == " " ==> (head + REDACTED + kept)[|head| + 9] == REDACTED[9];
  }

  lemma NoBracketInKept(s: Shape)
    requires IsShape(s)
    ensures forall y: string, k: nat :: s.prefix(y) && k < |y| ==> 2 <= |y| && !IsBracket(y[k])
  {
  }

  lemma WallIsNotKept(s: Shape, left: string)
    requires IsShape(s) && (IsWalled(left) || left == " ")
    ensures !s.prefix(left[..|left|]) && !s.prefix(left[..1])
  {
    NoBracketInKept(s);
    assert left[..|left|] == left;
  }

  lemma {:induction false} WallStaysForAll(passes: seq<Pass>, left: string, right: string)
    requires Quoted !in passes && IsWalled(left)
    ensures ScanAll(passes, left, right).Kept?
    decreases |passes|
  {
    if passes != [] {
      var p := passes[0];
      PassHasShape(p);
      WallStays(ShapeOf(p), left, right);
      WallStaysForAll(passes[1..], ScanPass(p, left, right).left, RunPass(p, right));
    }
  }

  // ---- Exactly when a quoted secret is taken ----

  function ScanQuoted(left: string, right: string): Scanned {
    ScanPass(Quoted, left + "\"", "\"" + right)
  }

  // The quoted pass takes the secret, or it looks at the text from the opening quote of the secret on anew.
  lemma QuotedPassIsScan(left: string, secret: string, right: string)
    requires '"' !in secret
    ensures ScanQuoted(left, right).Kept? ==> IsOpen(ScanQuoted(left, right).left)
    ensures RunPass(Quoted, Quoting(left, secret, right)) ==
            ShownOpen(ScanQuoted(left, right), RunPass(Quoted, Around("\"", secret, "\"" + right)))
  {
    PassHasShape(Quoted);
    QuotedEndsInOnlyQuote();
    QuotingIsAround(left, secret, right);
    QuotedRunIsScan(ShapeOf(Quoted), left + "\"", secret, "\"" + right);
  }

  lemma TakenSecretDoesNotLeak(left: string, secret: string, other: string, right: string)
    requires '"' !in secret && '"' !in other && ScanQuoted(left, right).Taken?
    ensures RedactLikelySecret(Quoting(left, secret, right)) == RedactLikelySecret(Quoting(left, other, right))
  {
    QuotedPassIsScan(left, secret, right);
    QuotedPassIsScan(left, other, right);
    PatternsArePasses(Quoting(left, secret, right));
    PatternsArePasses(Quoting(left, other, right));
  }

  // Two letters that can neither start nor end a kept text.
  predicate IsProbe(probe: string) {
    probe == "x" || probe == "z"
  }

  // No kept text starts in the first text, with the other one behind it.
  predicate IsQuietBefore(quiet: string, rest: string) {
    forall k :: 0 <= k < |quiet| && k + 1 < |quiet + rest| ==> !CanStart((quiet + rest)[k], (quiet + rest)[k + 1])
  }

  lemma ProbeIsQuiet(probe: string, rest: string)
    requires IsProbe(probe) && IsClosing(rest)
    ensures IsQuietBefore("\"] " + probe, rest)
  {
  }

  lemma QuoteIsQuiet(right: string)
    ensures IsQuietBefore("\"", right)
  {
  }

  lemma CopiedToQuote(s: Shape, quiet: string, quote: string, right: string)
    requires IsShape(s) && IsQuietBefore(quiet, quote + right) && IsQuietBefore(quote, right)
    ensures Run(s, quiet + (quote + right)) == quiet + (quote + Run(s, right))
  {
    QuietIsCopied(s, quiet, quote + right);
    QuietIsCopied(s, quote, right);
  }

  lemma ProbeText(kept: string, probe: string, right: string)
    ensures Around("\"", "] " + probe, "\"" + right) == ("\"] " + probe) + ("\"" + right)
    ensures kept + (("\"] " + probe) + ("\"" + right)) == Around(kept + "\"] ", probe, "\"" + right)
  {
  }

  // Behind a bracket and a space the first pass copies a probe.
  lemma ProbeIsCopied(left: string, probe: string, right: string)
    requires IsProbe(probe) && ScanQuoted(left, right).Kept?
    ensures var l := ScanQuoted(left, right).left;
            && l != "" && RunPass(Quoted, Quoting(left, "] " + probe, right)) ==
                          Around(l[..|l| - 1] + "\"] ", probe, "\"" + RunPass(Quoted, right))
  {
    var l := ScanQuoted(left, right).left;
    PassHasShape(Quoted);
    QuotedPassIsScan(left, "] " + probe, right);
    ProbeText(l[..|l| - 1], probe, right);
    ProbeText(l[..|l| - 1], probe, RunPass(Quoted, right));
    ProbeIsQuiet(probe, "\"" + right);
    QuoteIsQuiet(right);
    CopiedToQuote(ShapeOf(Quoted), "\"] " + probe, "\"", right);
  }

  lemma NothingLeavesProbe(left: string, probe: string, right: string)
    requires IsProbe(probe) && IsClosing(right)
    ensures IsValue(probe) && NoneLeavesValue(left, probe, right)
  {
    var x, n := Around(left, probe, right), |left|;
    AroundIs(left, probe, right);
    forall q: Pass, i: nat, j: nat | i < n + |probe| < j <= |x| ensures !IsPrefix(q, x[i..j]) {
      ProbeIsInside(q, x, n, i, j);
    }
  }

  lemma ProbeIsInside(q: Pass, x: string, n: nat, i: nat, j: nat)
    requires i < n + 1 < j <= |x| && !EndsPrefix(x[n]) && x[n + 1] == '"'
    ensures !IsPrefix(q, x[i..j])
  {
    assert x[i..j][n + 1 - i] == x[n + 1] && x[i..j][n - i] == x[n];
    if IsPrefix(q, x[i..j]) {
      QuoteInKept(q, x[i..j], n + 1 - i);
    }
  }

  const LATER: seq<Pass> := [Bearer, Colon, Assignment]

  lemma RedactIsLater(x: string)
    ensures RedactLikelySecret(x) == RunAll(LATER, RunPass(Quoted, x))
  {
    RedactIsRunAll(x);
    assert PASSES[1..] == LATER;
  }

  // What unquoted passes make of a probe behind a bracket and a space.
  lemma ProbeStays(passes: seq<Pass>, left: string, probe: string, right: string)
    requires Quoted !in passes && IsProbe(probe) && IsWalled(left) && IsClosing(right)
    ensures RunAll(passes, Around(left, probe, right)) ==
            Shown(ScanAll(passes, left, right), probe, RunAll(passes, right))
  {
    NothingLeavesProbe(left, probe, right);
    RunAllIsScan(passes, left, probe, right);
  }

  lemma ProbesDiffer(passes: seq<Pass>, left: string, probe: string, other: string, right: string)
    requires Quoted !in passes && IsWalled(left) && IsClosing(right)
    requires IsProbe(probe) && IsProbe(other) && probe != other
    ensures RunAll(passes, Around(left, probe, right)) != RunAll(passes, Around(left, other, right))
  {
    ProbeStays(passes, left, probe, right);
    ProbeStays(passes, left, other, right);
    WallStaysForAll(passes, left, right);
    ShownTellsValue(ScanAll(passes, left, right), probe, other, RunAll(passes, right));
  }

  // The result is the same whatever stands in the quotes.
  ghost predicate IsHidden(redact: Redactor, left: string, right: string) {
    forall secret, other :: '"' !in secret && '"' !in other ==>
      redact(Quoting(left, secret, right)) == redact(Quoting(left, other, right))
  }

  lemma TakenIsHidden(left: string, right: string)
    requires ScanQuoted(left, right).Taken?
    ensures IsHidden(RedactLikelySecret, left, right)
  {
    forall secret, other | '"' !in secret && '"' !in other
      ensures RedactLikelySecret(Quoting(left, secret, right)) == RedactLikelySecret(Quoting(left, other, right))
    {
      TakenSecretDoesNotLeak(left, secret, other, right);
    }
  }

  lemma ProbesShow(redact: Redactor, first: string -> string, passes: seq<Pass>, left: string, probe: string,
                   other: string, right: string, kept: string, after: string)
    requires IsProbe(probe) && IsProbe(other) && probe != other && IsWalled(kept) && IsClosing(after)
    requires Quoted !in passes && forall x :: redact(x) == RunAll(passes, first(x))
    requires first(Quoting(left, "] " + probe, right)) == Around(kept, probe, after)
    requires first(Quoting(left, "] " + other, right)) == Around(kept, other, after)
    ensures !IsHidden(redact, left, right)
  {
    ProbesDiffer(passes, kept, probe, other, after);
    assert '"' !in "] " + probe && '"' !in "] " + other;
  }

  lemma KeptIsNotHidden(redact: Redactor, passes: seq<Pass>, left: string, right: string)
    requires ScanQuoted(left, right).Kept? && Quoted !in passes
    requires forall x :: redact(x) == RunAll(passes, RunPass(Quoted, x))
    ensures !IsHidden(redact, left, right)
  {
    var l := ScanQuoted(left, right).left;
    ProbeIsCopied(left, "x", right);
    ProbeIsCopied(left, "z", right);
    ProbesShow(redact, x => RunPass(Quoted, x), passes, left, "x", "z", right, l[..|l| - 1] + "\"] ",
               "\"" + RunPass(Quoted, right));
  }

  lemma KeptShows(left: string, right: string)
    requires ScanQuoted(left, right).Kept?
    ensures !IsHidden(RedactLikelySecret, left, right)
  {
    forall x: string ensures RedactLikelySecret(x) == RunAll(LATER, RunPass(Quoted, x)) {
      RedactIsLater(x);
    }
    KeptIsNotHidden(RedactLikelySecret, LATER, left, right);
  }

  // The redacted text does not depend on what stands in quotes exactly when a scan of the text before them arrives at
  // the opening quote with a kept text, and no earlier quoted value is still open there.
  lemma QuotedSecretDoesNotLeak(left: string, right: string)
    ensures IsHidden(RedactLikelySecret, left, right) <==> ScanQuoted(left, right).Taken?
  {
    if ScanQuoted(left, right).Taken? {
      TakenIsHidden(left, right);
    } else {
      KeptShows(left, right);
    }
  }

  lemma RunAddsNoNewline(s: Shape, x: string)
    requires IsShape(s) && '\n' !in x
    ensures '\n' !in Run(s, x)
  {
    if '\n' in Run(s, x) {
      var j :| 0 <= j < |Run(s, x)| && Run(s, x)[j] == '\n';
      var m := OnlyTextIsAdded(FinderOf(s), REDACTED, x, 0, j);
    }
  }

  lemma PassAddsNoNewline(p: Pass, x: string)
    requires '\n' !in x
    ensures '\n' !in RunPass(p, x)
  {
    PassHasShape(p);
    RunAddsNoNewline(ShapeOf(p), x);
  }

  // A line stays one line.
  lemma RedactedLineIsLine(x: string)
    requires '\n' !in x
    ensures '\n' !in RedactLikelySecret(x)
  {
    PatternsArePasses(x);
    var q := RunPass(Quoted, x);
    var b := RunPass(Bearer, q);
    PassAddsNoNewline(Quoted, x);
    PassAddsNoNewline(Bearer, q);
    PassAddsNoNewline(Colon, b);
    PassAddsNoNewline(Assignment, RunPass(Colon, b));
  }
}
