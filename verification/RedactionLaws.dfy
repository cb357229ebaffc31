/** What the redactor makes of an assignment and of an authorization header, spelled out: the keywords in any casing,
  * the spaces one by one, and no other notion of this project.
  */
module RedactionLaws {
  import opened Text
  import opened Keywords
  import opened Replacing
  import opened RedactionScan
  import opened RedactionShapes
  import opened Redaction
  import opened RedactionPatterns
  import opened RedactionSpelling
  import opened RedactionWords
  import opened RedactionCuts
  import opened RedactionLimits
  import opened RedactionSecrets

  // A value without spaces, quotes, separators and opening brackets.
  predicate IsSimpleValue(value: string) {
    && value != ""
    && forall k :: 0 <= k < |value| ==>
         !IsSpaceCode(value[k]) && value[k] != '=' && value[k] != ':' && value[k] != '"' && value[k] != '['
  }

  lemma SimpleIsPlain(value: string)
    requires IsSimpleValue(value)
    ensures IsPlain(value)
  {
  }

  lemma PassTakes(p: Pass, left: string, value: string)
    requires !p.Quoted? && IsPrefix(p, left) && IsPlain(value) && value != ""
    ensures RunPass(p, left + value) == left + "[REDACTED]"
  {
    PassHasShape(p);
    PlainValueIsFound(ShapeOf(p), left, value);
    RunToEnd(ShapeOf(p), left + value);
    assert (left + value)[..|left|] == left;
  }

  predicate HasOnly(c: char, x: string, at: nat) {
    at < |x| && forall k :: 0 <= k < |x| && x[k] == c ==> k == at
  }

  // ---- An assignment ----

  lemma AssignmentParts(w: string, a: string, b: string, value: string, word: string)
    requires IsSecretWord(word) && IsSpelled(w, word) && AreSpaces(a) && AreSpaces(b) && IsSimpleValue(value)
    ensures var x := w + a + "=" + b + value; HasNo('"', x) && ':' !in x
  {
    SecretWordIsKeyword(word);
    SpelledIsSolid(w, word);
  }

  lemma AssignmentIsRedacted(word: string, w: string, a: string, b: string, value: string)
    requires IsSecretWord(word) && IsSpelled(w, word) && AreSpaces(a) && AreSpaces(b) && IsSimpleValue(value)
    ensures RedactLikelySecret(w + a + "=" + b + value) == w + a + "=" + b + "[REDACTED]"
  {
    var left := w + a + "=" + b;
    AssignmentParts(w, a, b, value, word);
    KeywordTextIsKept(Assignment, word, w, a, b);
    AssignmentTakes(left, value);
  }

  lemma AssignmentTakes(left: string, value: string)
    requires IsPrefix(Assignment, left) && IsSimpleValue(value) && HasNo('"', left + value) && ':' !in left + value
    ensures RedactLikelySecret(left + value) == left + "[REDACTED]"
  {
    NoQuoteNoMatch(left + value);
    NoColonNoMatch(Bearer, left + value);
    NoColonNoMatch(Colon, left + value);
    SimpleIsPlain(value);
    PassTakes(Assignment, left, value);
    PatternsArePasses(left + value);
  }

  // ---- A keyword with a colon ----

  // Behind the only colon there are spaces up to e, and none from there on.
  predicate IsColonText(x: string, t: nat, e: nat) {
    && t < e <= |x| && HasOnly(':', x, t) && (forall k :: t < k < e ==> IsSpace(x[k]))
    && forall k :: e <= k < |x| ==> !IsSpace(x[k])
  }

  // The kept text of a bearer has a colon, then Bearer, then a space.
  lemma BearerNeedsSpace(y: string) returns (colon: nat, last: nat)
    requires IsPrefix(Bearer, y)
    ensures colon < last < |y| - 1 && y[colon] == ':' && !IsSpace(y[last]) && IsSpace(y[last + 1])
  {
    var s := SolidAt(Bearer, y);
    colon, last := AuthorizationStem(y) - 1, s - 1;
  }

  lemma NoBearerBehindColon(x: string, t: nat, e: nat, i: nat, j: nat)
    requires IsColonText(x, t, e) && i <= j <= |x|
    ensures !IsPrefix(Bearer, x[i..j])
  {
    var y := x[i..j];
    assert forall k :: 0 <= k < |y| ==> y[k] == x[i + k];
    if IsPrefix(Bearer, y) {
      var colon, last := BearerNeedsSpace(y);
    }
  }

  // No part of the text is a kept text of the pattern.
  ghost predicate HasNoKept(prefix: string -> bool, x: string) {
    forall i: nat, j: nat :: i <= j <= |x| ==> !prefix(x[i..j])
  }

  lemma NoKeptIsClean(s: Shape, x: string)
    requires IsShape(s) && HasNoKept(s.prefix, x)
    ensures IsCleanOf(s, x)
  {
    forall k: nat | k <= |x| ensures IsCleanHead(FinderOf(s), REDACTED, x[k..]) {
      NoKeptAtHead(s, x, k, x[k..]);
    }
  }

  lemma NoKeptAtHead(s: Shape, x: string, k: nat, z: string)
    requires IsShape(s) && HasNoKept(s.prefix, x) && k <= |x| && z == x[k..]
    ensures FindValue(s, z).NotFound?
  {
    forall v: nat | v <= |z| ensures !s.prefix(z[..v]) {
      assert z[..v] == x[k..k + v];
    }
  }

  lemma NoKeptNoMatch(p: Pass, x: string)
    requires HasNoKept(y => IsPrefix(p, y), x)
    ensures RunPass(p, x) == x && HasNoResidue(p, x)
  {
    PassHasShape(p);
    assert HasNoKept(ShapeOf(p).prefix, x);
    NoKeptIsClean(ShapeOf(p), x);
    PassKeepsClean(p, x);
  }

  lemma NoBearerPass(x: string, t: nat, e: nat)
    requires IsColonText(x, t, e)
    ensures RunPass(Bearer, x) == x
  {
    forall i: nat, j: nat | i <= j <= |x| ensures !IsPrefix(Bearer, x[i..j]) {
      NoBearerBehindColon(x, t, e, i, j);
    }
    NoKeptNoMatch(Bearer, x);
  }

  lemma ColonParts(w: string, a: string, b: string, value: string, word: string)
    requires IsSecretWord(word) && IsSpelled(w, word) && AreSpaces(a) && AreSpaces(b) && IsSimpleValue(value)
    ensures var left := w + a + ":" + b;
            && HasNo('"', left + value) && HasNo('=', left + "[REDACTED]")
            && IsColonText(left + value, |w| + |a|, |left|)
  {
    SecretWordIsKeyword(word);
    SpelledIsSolid(w, word);
    LaidOut(w, a, ':', b);
    var left := w + a + ":" + b;
    assert left == w + a + [':'] + b;
    assert forall k :: 0 <= k < |w| ==> left[k] == w[k];
    assert forall k :: 0 <= k < |left| ==> (left + value)[k] == left[k];
    assert forall k :: |left| <= k < |left + value| ==> (left + value)[k] == value[k - |left|];
  }

  lemma ColonIsRedacted(word: string, w: string, a: string, b: string, value: string)
    requires IsSecretWord(word) && IsSpelled(w, word) && AreSpaces(a) && AreSpaces(b) && IsSimpleValue(value)
    ensures RedactLikelySecret(w + a + ":" + b + value) == w + a + ":" + b + "[REDACTED]"
  {
    var left := w + a + ":" + b;
    ColonParts(w, a, b, value, word);
    KeywordTextIsKept(Colon, word, w, a, b);
    assert w + a + [':'] + b == left;
    ColonTakes(left, value, |w| + |a|);
  }

  lemma ColonTakes(left: string, value: string, t: nat)
    requires IsPrefix(Colon, left) && IsSimpleValue(value) && HasNo('"', left + value)
    requires HasNo('=', left + "[REDACTED]") && IsColonText(left + value, t, |left|)
    ensures RedactLikelySecret(left + value) == left + "[REDACTED]"
  {
    NoQuoteNoMatch(left + value);
    NoBearerPass(left + value, t, |left|);
    SimpleIsPlain(value);
    PassTakes(Colon, left, value);
    NoEqualsNoAssignment(left + "[REDACTED]");
    PatternsArePasses(left + value);
  }

  // ---- An authorization header ----

  // Before the only colon there are spaces from n on, and right before them the letters o and n.
  predicate IsHeaderText(x: string, n: nat, t: nat) {
    && 2 <= n <= t < |x| && HasOnly(':', x, t) && (forall k :: n <= k < t ==> IsSpace(x[k]))
    && Lower(x[n - 1]) == 'n' && Lower(x[n - 2]) == 'o'
  }

  lemma KeywordsEndOtherwise(word: string)
    requires word in KEYWORDS
    ensures |word| >= 2 && !(word[|word| - 2] == 'o' && word[|word| - 1] == 'n') && !IsSpace(word[|word| - 1])
  {
  }

  lemma KeywordBeforeColon(y: string) returns (last: nat, colon: nat)
    requires IsPrefix(Colon, y)
    ensures 0 < last < colon < |y| && y[colon] == ':' && !IsSpace(y[last])
    ensures forall k :: last < k < colon ==> IsSpace(y[k])
    ensures !(Lower(y[last - 1]) == 'o' && Lower(y[last]) == 'n')
  {
    var word := FirstWord(y, KEYWORDS);
    KeywordsEndOtherwise(word);
    last, colon := |word| - 1, KeywordStem(y, ':') - 1;
    assert Lower(y[0 + last]) == word[last] && Lower(y[0 + (last - 1)]) == word[last - 1];
  }

  lemma KeywordInside(x: string, i: nat, j: nat) returns (last: nat, colon: nat)
    requires i <= j <= |x| && IsPrefix(Colon, x[i..j])
    ensures 0 < last < colon < |x| && x[colon] == ':' && !IsSpace(x[last])
    ensures forall k :: last < k < colon ==> IsSpace(x[k])
    ensures !(Lower(x[last - 1]) == 'o' && Lower(x[last]) == 'n')
  {
    var y := x[i..j];
    last, colon := KeywordBeforeColon(y);
    assert forall k :: 0 <= k < |y| ==> y[k] == x[i + k];
    assert forall k :: i + last < k < i + colon ==> x[k] == y[k - i];
    last, colon := i + last, i + colon;
  }

  lemma NoKeywordInHeader(x: string, n: nat, t: nat, i: nat, j: nat)
    requires IsHeaderText(x, n, t) && i <= j <= |x|
    ensures !IsPrefix(Colon, x[i..j])
  {
    assert !IsSpace(x[n - 1]);
    if IsPrefix(Colon, x[i..j]) {
      var last, colon := KeywordInside(x, i, j);
    }
  }

  lemma NoColonPass(x: string, n: nat, t: nat)
    requires IsHeaderText(x, n, t)
    ensures RunPass(Colon, x) == x
  {
    forall i: nat, j: nat | i <= j <= |x| ensures !IsPrefix(Colon, x[i..j]) {
      NoKeywordInHeader(x, n, t, i, j);
    }
    NoKeptNoMatch(Colon, x);
  }

  lemma HeaderParts(w: string, a: string, b: string, v: string, c: string, value: string)
    requires IsSpelled(w, "authorization") && IsSpelled(v, "bearer") && AreSpaces(a) && AreSpaces(b)
    requires AreSpaces(c) && IsSimpleValue(value)
    ensures var left := w + a + ":" + b + v + c; HasNo('"', left + value) && HasNo('=', left + "[REDACTED]")
  {
    WordsAreSolid();
    SpelledIsSolid(w, "authorization");
    SpelledIsSolid(v, "bearer");
  }

  lemma HeaderLayout(w: string, a: string, b: string, v: string, c: string)
    requires IsSpelled(w, "authorization") && IsSpelled(v, "bearer") && AreSpaces(a) && AreSpaces(b) && AreSpaces(c)
    ensures IsHeaderText(w + a + ":" + b + v + c + "[REDACTED]", 13, 13 + |a|)
  {
    WordsAreSolid();
    SpelledIsSolid(w, "authorization");
    SpelledIsSolid(v, "bearer");
    var after := b + v + c + "[REDACTED]";
    var x := w + a + ":" + after;
    assert x == w + a + ":" + b + v + c + "[REDACTED]";
    assert SameLetter(w[12], "authorization"[12]) && SameLetter(w[11], "authorization"[11]);
    assert forall k :: 13 <= k < 13 + |a| ==> x[k] == a[k - 13];
    assert x[12] == w[12] && x[11] == w[11];
    assert ':' !in "[REDACTED]";
    OnlyBetween(w + a, ':', after, x);
  }

  lemma WordsAreSolid()
    ensures forall k :: 0 <= k < |"authorization"| ==>
              !IsSpace("authorization"[k]) && "authorization"[k] != '"' && "authorization"[k] != '='
              && "authorization"[k] != ':'
    ensures forall k :: 0 <= k < |"bearer"| ==>
              !IsSpace("bearer"[k]) && "bearer"[k] != '"' && "bearer"[k] != '=' && "bearer"[k] != ':'
  {
  }

  lemma OnlyBetween(before: string, c: char, after: string, x: string)
    requires x == before + [c] + after && c !in before && c !in after
    ensures HasOnly(c, x, |before|)
  {
    assert forall k :: 0 <= k < |before| ==> x[k] == before[k];
    assert forall k :: |before| < k < |x| ==> x[k] == after[k - |before| - 1];
  }

  lemma AuthorizationIsRedacted(w: string, a: string, b: string, v: string, c: string, value: string)
    requires IsSpelled(w, "authorization") && IsSpelled(v, "bearer") && AreSpaces(a) && AreSpaces(b)
    requires AreSpaces(c) && c != "" && IsSimpleValue(value)
    ensures RedactLikelySecret(w + a + ":" + b + v + c + value) == w + a + ":" + b + v + c + "[REDACTED]"
  {
    HeaderParts(w, a, b, v, c, value);
    HeaderLayout(w, a, b, v, c);
    BearerTextIsKept(w, a, b, v, c);
    HeaderTakes(w + a + ":" + b + v + c, value, 13 + |a|);
  }

  lemma HeaderTakes(left: string, value: string, t: nat)
    requires IsPrefix(Bearer, left) && IsSimpleValue(value) && HasNo('"', left + value)
    requires HasNo('=', left + "[REDACTED]") && IsHeaderText(left + "[REDACTED]", 13, t)
    ensures RedactLikelySecret(left + value) == left + "[REDACTED]"
  {
    NoQuoteNoMatch(left + value);
    SimpleIsPlain(value);
    PassTakes(Bearer, left, value);
    NoColonPass(left + "[REDACTED]", 13, t);
    NoEqualsNoAssignment(left + "[REDACTED]");
    PatternsArePasses(left + value);
  }

  // ---- A quoted assignment ----

  predicate AreBlanks(text: string) {
    forall k :: 0 <= k < |text| ==>
      text[k] as int == 9 || text[k] as int == 10 || text[k] as int == 13 || text[k] as int == 32
  }

  lemma QuotedText(left: string, value: string)
    ensures Quoting(left, value, "") == left + "\"" + value + "\""
    ensures (left + "\"") + (REDACTED + ("\"" + "")) == left + "\"[REDACTED]\""
  {
  }

  lemma QuotedPassTakes(left: string, value: string)
    requires IsPrefix(Quoted, left + "\"") && HasNo('"', value)
    ensures RunPass(Quoted, left + "\"" + value + "\"") == left + "\"[REDACTED]\""
  {
    QuotedPassOf(left, value, "");
    QuotedText(left, value);
  }

  // A text with one equals sign at t, and spaces from there to a quote at e.
  predicate IsQuotedText(x: string, t: nat, e: nat) {
    && t < e < |x| && HasOnly('=', x, t) && x[e] == '"'
    && forall k :: t < k < e ==> IsSpace(x[k])
  }

  // No vertical tab and no form feed is among the spaces.
  predicate HasBlanksOnly(x: string, t: nat, e: nat) {
    t < e <= |x| && forall k :: t < k < e ==> IsBlank(x[k])
  }

  lemma ValueInside(x: string, k: nat, v: nat) returns (i: nat, w: nat)
    requires k <= |x| && IsCandidate(ShapeOf(Assignment), x[k..], v)
    ensures i < w < |x| && x[i] == '=' && IsValueChar(Assignment, x[w])
    ensures forall j :: i < j < w ==> IsSpace(x[j])
  {
    var z := x[k..];
    assert forall j :: 0 <= j < |z| ==> z[j] == x[k + j];
    i := ValueBehindEquals(z, v);
    assert forall j :: k + i < j < k + v ==> x[j] == z[j - k];
    i, w := k + i, k + v;
  }

  lemma NoValueBeforeQuote(s: Shape, x: string, t: nat, e: nat, k: nat, v: nat)
    requires s == ShapeOf(Assignment) && IsQuotedText(x, t, e) && HasBlanksOnly(x, t, e) && k <= |x|
    ensures !IsCandidate(s, x[k..], v)
  {
    assert !IsSpace(x[e]);
    if IsCandidate(s, x[k..], v) {
      var i, w := ValueInside(x, k, v);
    }
  }

  lemma BlanksAreKept(x: string, t: nat, e: nat)
    requires IsQuotedText(x, t, e) && HasBlanksOnly(x, t, e)
    ensures RunPass(Assignment, x) == x
  {
    PassHasShape(Assignment);
    forall k, v | 0 <= k <= |x| && 0 <= v <= |x[k..]| ensures !IsCandidate(ShapeOf(Assignment), x[k..], v) {
      NoValueBeforeQuote(ShapeOf(Assignment), x, t, e, k, v);
    }
    NothingFound(ShapeOf(Assignment), x);
  }

  // A space that is no blank is taken for a value.
  lemma OtherSpaceIsTaken(s: Shape, x: string, e: nat, m: nat)
    requires s == ShapeOf(Assignment) && IsShape(s) && m < e < |x| && x[e] == '"' && s.prefix(x[..m])
    requires IsValueChar(Assignment, x[m]) && forall k :: m <= k < e ==> IsSpace(x[k])
    ensures !IsCleanOf(s, x)
  {
    assert IsCandidate(s, x, m);
    var u := FindValue(s, x).start;
    KeptHasNoQuote(Assignment, x[..u]);
    assert forall k :: 0 <= k < u ==> x[..u][k] == x[k];
    assert u <= e && u != e;
    assert IsSpace(x[u]) && x[u] != '[';
    NotRedacted(s, x, u);
  }

  lemma NotRedacted(s: Shape, x: string, u: nat)
    requires IsShape(s) && FindValue(s, x).Found? && FindValue(s, x).start == u < |x| && x[u] != '['
    ensures !IsCleanOf(s, x)
  {
    assert x[0..] == x;
    if IsCleanOf(s, x) {
      HeadIsRedacted(s, x, FindValue(s, x).start, FindValue(s, x).end);
    }
  }

  lemma HeadIsRedacted(s: Shape, x: string, v: nat, e: nat)
    requires IsShape(s) && IsCleanOf(s, x) && FindValue(s, x) == Found(v, e)
    ensures v < |x| && x[v] == '['
  {
    assert x[0..] == x;
    assert IsCleanHead(FinderOf(s), REDACTED, x[0..]);
    assert x[v] == x[v..e][0] == REDACTED[0];
  }

  lemma QuotedHasNoColon(word: string, w: string, a: string, b: string)
    requires IsSecretWord(word) && IsSpelled(w, word) && AreSpaces(a) && AreSpaces(b)
    ensures ':' !in w + a + "=" + b + "\"[REDACTED]\"" && '=' !in w + a && '=' !in b + "\"[REDACTED]\""
  {
    SecretWordIsKeyword(word);
    SpelledIsSolid(w, word);
    assert '=' !in "\"[REDACTED]\"" && ':' !in "\"[REDACTED]\"";
  }

  lemma QuotedParts(word: string, w: string, a: string, b: string)
    requires IsSecretWord(word) && IsSpelled(w, word) && AreSpaces(a) && AreSpaces(b)
    ensures var x, t, e := w + a + "=" + b + "\"[REDACTED]\"", |w| + |a|, |w| + |a| + 1 + |b|;
            && ':' !in x && IsQuotedText(x, t, e) && (HasBlanksOnly(x, t, e) <==> AreBlanks(b))
            && (forall k :: 0 <= k < |b| ==> x[t + 1 + k] == b[k])
  {
    QuotedHasNoColon(word, w, a, b);
    var after := b + "\"[REDACTED]\"";
    var x, t := w + a + "=" + after, |w| + |a|;
    assert x == w + a + "=" + b + "\"[REDACTED]\"";
    OnlyBetween(w + a, '=', after, x);
    SpacesBetween(w + a, "=", b, "\"[REDACTED]\"");
    assert x == w + a + "=" + (b + "\"[REDACTED]\"");
  }

  lemma SpacesBetween(before: string, one: string, b: string, after: string)
    requires |one| == 1 && AreSpaces(b) && after != ""
    ensures var x, t, e := before + one + (b + after), |before|, |before| + 1 + |b|;
            && t < e < |x| && x[e] == after[0] && (forall k :: t < k < e ==> IsSpace(x[k]))
            && (HasBlanksOnly(x, t, e) <==> AreBlanks(b)) && (forall k :: 0 <= k < |b| ==> x[t + 1 + k] == b[k])
  {
    var x, t := before + one + (b + after), |before|;
    assert forall k :: 0 <= k < |b| ==> x[t + 1 + k] == b[k];
    assert forall k :: t < k < t + 1 + |b| ==> x[k] == b[k - t - 1];
  }

  lemma QuotedIsAssigned(left: string, value: string, redacted: string)
    requires IsPrefix(Quoted, left + "\"") && HasNo('"', value) && redacted == left + "\"[REDACTED]\""
    requires ':' !in redacted
    ensures RedactLikelySecret(left + "\"" + value + "\"") == RunPass(Assignment, redacted)
  {
    QuotedPassTakes(left, value);
    NoColonNoMatch(Bearer, redacted);
    NoColonNoMatch(Colon, redacted);
    PatternsArePasses(left + "\"" + value + "\"");
  }

  lemma OtherSpaceAt(b: string) returns (m: nat)
    requires AreSpaces(b) && !AreBlanks(b)
    ensures m < |b| && IsSpace(b[m]) && !IsBlank(b[m]) && AreSpaces(b[..m])
  {
    m :| 0 <= m < |b| && !IsBlank(b[m]);
  }

  lemma PartUpTo(before: string, b: string, after: string, m: nat)
    requires m < |b|
    ensures var x, at := before + b + after, |before| + m; x[..at] == before + b[..m] && x[at] == b[m]
  {
  }

  lemma OtherSpaceShows(word: string, w: string, a: string, b: string, x: string)
    requires IsSecretWord(word) && IsSpelled(w, word) && AreSpaces(a) && AreSpaces(b) && !AreBlanks(b)
    requires x == w + a + "=" + b + "\"[REDACTED]\""
    ensures !HasNoResidue(Assignment, x)
  {
    var m := OtherSpaceAt(b);
    var t := |w| + |a|;
    QuotedParts(word, w, a, b);
    KeywordTextIsKept(Assignment, word, w, a, b[..m]);
    PartUpTo(w + a + "=", b, "\"[REDACTED]\"", m);
    PassHasShape(Assignment);
    OtherSpaceIsTaken(ShapeOf(Assignment), x, t + 1 + |b|, t + 1 + m);
  }

  // A quoted value of any characters is replaced, and nothing else is, exactly when there is no vertical tab and no
  // form feed in front of the quote: those are spaces to the pattern, and a value to the next one.
  lemma QuotedIsRedacted(word: string, w: string, a: string, b: string, value: string)
    requires IsSecretWord(word) && IsSpelled(w, word) && AreSpaces(a) && AreSpaces(b) && HasNo('"', value)
    ensures RedactLikelySecret(w + a + "=" + b + "\"" + value + "\"") == w + a + "=" + b + "\"[REDACTED]\"" <==>
            AreBlanks(b)
  {
    var left := w + a + "=" + b;
    var x := left + "\"[REDACTED]\"";
    QuotedTextIsKept(word, w, a, b);
    QuotedParts(word, w, a, b);
    QuotedIsAssigned(left, value, x);
    if AreBlanks(b) {
      BlanksAreKept(x, |w| + |a|, |left|);
    } else {
      OtherSpaceShows(word, w, a, b, x);
      PassLeavesNoResidue(Assignment, Assignment, x);
    }
  }

  // ---- Texts without a keyword ----

  predicate IsSpelledAt(x: string, i: nat, word: string) {
    i + |word| <= |x| && IsSpelled(x[i..i + |word|], word)
  }

  // The word is nowhere in the text, in no casing.
  ghost predicate IsWithout(x: string, word: string) {
    forall i: nat :: !IsSpelledAt(x, i, word)
  }

  ghost predicate NamesNoSecret(x: string) {
    && IsWithout(x, "password") && IsWithout(x, "passwd") && IsWithout(x, "token") && IsWithout(x, "secret")
    && IsWithout(x, "apikey") && IsWithout(x, "api_key") && IsWithout(x, "api-key")
    && IsWithout(x, "authorization")
  }

  lemma WordIsSpelled(x: string, i: nat, word: string)
    requires HasNoCapital(word) && HasWordAt(word, x, i)
    ensures IsSpelledAt(x, i, word)
  {
    var text := x[i..i + |word|];
    forall k | 0 <= k < |text| ensures SameLetter(text[k], word[k]) {
      assert Lower(x[i + k]) == word[k];
    }
  }

  lemma KeptTextHasWord(p: Pass, y: string) returns (word: string)
    requires IsPrefix(p, y)
    ensures HasWordAt(word, y, 0) && (word in KEYWORDS || word == "authorization")
  {
    if p.Bearer? {
      word := "authorization";
    } else {
      var z := if p.Quoted? then y[..|y| - 1] else y;
      word := FirstWord(z, KEYWORDS);
      assert IsStemAndSpaces(p, z);
      assert forall k :: 0 <= k < |z| ==> z[k] == y[k];
    }
  }

  lemma KeywordIsSecretWord(word: string)
    requires word in KEYWORDS
    ensures IsSecretWord(word)
  {
    var i :| 0 <= i < |KEYWORDS| && KEYWORDS[i] == word;
    assert i == 0 || i == 1 || i == 2 || i == 3 || i == 4 || i == 5 || i == 6;
  }

  lemma NamedIsSpelled(x: string, i: nat, word: string)
    requires NamesNoSecret(x) && (word in KEYWORDS || word == "authorization")
    ensures !IsSpelledAt(x, i, word) && HasNoCapital(word)
  {
    if word in KEYWORDS {
      KeywordIsSecretWord(word);
    }
  }

  lemma NothingNamed(p: Pass, x: string, i: nat, j: nat)
    requires NamesNoSecret(x) && i <= j <= |x|
    ensures !IsPrefix(p, x[i..j])
  {
    if IsPrefix(p, x[i..j]) {
      var word := KeptTextHasWord(p, x[i..j]);
      NamedIsSpelled(x, i, word);
      WordInside(x, i, j, word);
    }
  }

  lemma WordInside(x: string, i: nat, j: nat, word: string)
    requires i <= j <= |x| && HasNoCapital(word) && HasWordAt(word, x[i..j], 0)
    ensures IsSpelledAt(x, i, word)
  {
    WordIsSpelled(x[i..j], 0, word);
    assert x[i..j][0..|word|] == x[i..i + |word|];
  }

  // A text that names none of the keywords is left as it is.
  lemma UnnamedIsKept(x: string)
    requires NamesNoSecret(x)
    ensures RedactLikelySecret(x) == x
  {
    forall p: Pass ensures HasNoResidue(p, x) {
      forall i: nat, j: nat | i <= j <= |x| ensures !IsPrefix(p, x[i..j]) {
        NothingNamed(p, x, i, j);
      }
      NoKeptNoMatch(p, x);
    }
    NoResidueIsFixed(x);
    PatternsArePasses(x);
  }

  // ---- How far a value reaches ----

  // What a value of an unquoted pattern is made of, by codes: no space, newline, carriage return or tab, and behind an
  // equals sign no quote.
  predicate IsValueCode(p: Pass, c: char) {
    var code := c as int;
    code != 32 && code != 10 && code != 13 && code != 9 && (p == Assignment ==> code != 34)
  }

  lemma KeptEndsHere(p: Pass, left: string, more: string, u: nat)
    requires !p.Quoted? && IsPrefix(p, left) && (more != "" ==> !IsSpace(more[0]))
    requires u <= |left + more| && IsPrefix(p, (left + more)[..u])
    ensures u <= |left|
  {
    var x := left + more;
    assert x[..|left|] == left;
    assert more != "" ==> x[|left|] == more[0];
    StemAndSpacesOfPart(p, x, |left|);
    StemAndSpacesOfPart(p, x, u);
  }

  lemma FoundHere(s: Shape, x: string, left: string, value: string, rest: string)
    requires IsShape(s) && !s.quoted && s.prefix(left) && x == left + (value + rest)
    requires value != "" && forall k :: 0 <= k < |value| ==> s.isValue(value[k])
    requires rest != "" ==> !s.isValue(rest[0])
    requires forall u: nat :: u <= |x| && s.prefix(x[..u]) ==> u <= |left|
    ensures FindValue(s, x) == Found(|left|, |left| + |value|)
  {
    assert x[..|left|] == left;
    assert forall k :: |left| <= k < |left| + |value| ==> x[k] == value[k - |left|];
    assert rest != "" ==> x[|left| + |value|] == rest[0];
    assert IsCandidate(s, x, |left|);
    ValueEndIs(s, x, |left|, |left| + |value|);
  }

  lemma ValueIsFoundHere(p: Pass, s: Shape, left: string, value: string, rest: string)
    requires !p.Quoted? && s == ShapeOf(p) && IsShape(s) && IsPrefix(p, left)
    requires value != "" && !IsSpaceCode(value[0]) && forall k :: 0 <= k < |value| ==> IsValueCode(p, value[k])
    requires rest != "" ==> !IsValueCode(p, rest[0])
    ensures FindValue(s, left + (value + rest)) == Found(|left|, |left| + |value|)
  {
    var x := left + (value + rest);
    forall u: nat | u <= |x| && s.prefix(x[..u]) ensures u <= |left| {
      assert (value + rest)[0] == value[0];
      KeptEndsHere(p, left, value + rest, u);
    }
    FoundHere(s, x, left, value, rest);
  }

  // An unquoted value is replaced up to the first character that is none of a value, and the rest is looked at anew.
  lemma ValueIsReplaced(p: Pass, left: string, value: string, rest: string)
    requires !p.Quoted? && IsPrefix(p, left)
    requires value != "" && !IsSpaceCode(value[0]) && forall k :: 0 <= k < |value| ==> IsValueCode(p, value[k])
    requires rest != "" ==> !IsValueCode(p, rest[0])
    ensures ReplacePattern(p, left + (value + rest)) == left + ("[REDACTED]" + ReplacePattern(p, rest))
  {
    PassHasShape(p);
    var x := left + (value + rest);
    ValueIsFoundHere(p, ShapeOf(p), left, value, rest);
    assert x[..|left|] == left && x[|left| + |value|..] == rest;
    RunReplaces(ShapeOf(p), x, left, rest);
    PatternIsPass(p, x);
    PatternIsPass(p, rest);
  }

  // A quoted value is replaced up to the next quote, whatever it is made of.
  lemma QuotedValueIsReplaced(kept: string, value: string, rest: string)
    requires IsPrefix(Quoted, kept) && HasNo('"', value)
    ensures ReplacePattern(Quoted, kept + (value + ("\"" + rest))) ==
            kept + ("[REDACTED]" + ReplacePattern(Quoted, "\"" + rest))
  {
    PassHasShape(Quoted);
    QuotedEndsInOnlyQuote();
    QuotedRunOf(ShapeOf(Quoted), kept, value, "\"" + rest);
    PatternIsPass(Quoted, kept + (value + ("\"" + rest)));
    PatternIsPass(Quoted, "\"" + rest);
  }
}
