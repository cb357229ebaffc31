/** What the redactor lets through. Quotes pair from the left: a quote that is not closed before the next quoted
  * assignment takes its opening quote, and what stands behind that quote stays. And a value that takes the keyword of
  * the next assignment leaves the value of that one.
  */
module RedactionLimits {
  import opened Text
  import opened Keywords
  import opened Replacing
  import opened Splitting
  import opened RedactionScan
  import opened RedactionShapes
  import opened Redaction
  import opened RedactionPatterns
  import opened RedactionSecrets
  import opened RedactionValues
  import opened RedactionWords

  lemma BearerHasColon(y: string)
    requires BearerStem(y) > 0
    ensures ':' in y
  {
    var a := AuthorizationStem(y);
    assert y[a - 1] == ':';
  }

  // Behind the separator of an unquoted assignment there are only spaces.
  lemma AssignmentAt(y: string) returns (at: nat)
    requires IsPrefix(Assignment, y)
    ensures at < |y| && y[at] == '=' && forall k :: at < k < |y| ==> IsSpace(y[k])
  {
    var s := SolidAt(Assignment, y);
    at := s - 1;
  }

  lemma ColonNeedsColon(p: Pass, y: string)
    requires (p == Bearer || p == Colon) && IsPrefix(p, y)
    ensures ':' in y
  {
    if p == Bearer {
      BearerHasColon(y);
    } else {
      var s := SolidAt(p, y);
      assert y[s - 1] == ':';
    }
  }

  lemma NothingFound(s: Shape, x: string)
    requires IsShape(s) && forall k, v :: 0 <= k <= |x| && 0 <= v <= |x[k..]| ==> !IsCandidate(s, x[k..], v)
    ensures Run(s, x) == x
  {
    forall k | 0 <= k <= |x| ensures IsCleanHead(FinderOf(s), REDACTED, x[k..]) {
      assert FindValue(s, x[k..]).Found? ==> IsCandidate(s, x[k..], FindValue(s, x[k..]).start);
    }
    CleanIsFixed(FinderOf(s), REDACTED, x);
  }

  lemma NoColonNoPrefix(p: Pass, y: string)
    requires (p == Bearer || p == Colon) && ':' !in y
    ensures !IsPrefix(p, y)
  {
    if IsPrefix(p, y) {
      ColonNeedsColon(p, y);
    }
  }

  lemma NoColonNoMatch(p: Pass, x: string)
    requires (p == Bearer || p == Colon) && ':' !in x
    ensures RunPass(p, x) == x
  {
    PassHasShape(p);
    var s := ShapeOf(p);
    forall k, v | 0 <= k <= |x| && 0 <= v <= |x[k..]| ensures !IsCandidate(s, x[k..], v) {
      NoColonNoPrefix(p, x[k..][..v]);
    }
    NothingFound(s, x);
  }

  // What a match of an unquoted assignment needs: an equals sign, spaces, and then a character of a value.
  lemma ValueBehindEquals(z: string, v: nat) returns (i: nat)
    requires IsCandidate(ShapeOf(Assignment), z, v)
    ensures i < v < |z| && z[i] == '=' && IsValueChar(Assignment, z[v])
    ensures forall k :: i < k < v ==> IsSpace(z[k])
  {
    i := AssignmentAt(z[..v]);
    assert forall k :: 0 <= k < v ==> z[..v][k] == z[k];
  }

  // One equals sign, with a quote behind it.
  lemma QuoteIsNoValue(x: string, at: nat)
    requires at + 1 < |x| && x[at] == '=' && x[at + 1] == '"'
    requires forall k :: 0 <= k < |x| && x[k] == '=' ==> k == at
    ensures RunPass(Assignment, x) == x
  {
    PassHasShape(Assignment);
    var s := ShapeOf(Assignment);
    forall k, v | 0 <= k <= |x| && 0 <= v <= |x[k..]| ensures !IsCandidate(s, x[k..], v) {
      QuoteIsNoCandidate(s, x, at, k, v);
    }
    NothingFound(s, x);
  }

  lemma QuoteIsNoCandidate(s: Shape, x: string, at: nat, k: nat, v: nat)
    requires s == ShapeOf(Assignment) && at + 1 < |x| && x[at] == '=' && x[at + 1] == '"'
    requires forall k :: 0 <= k < |x| && x[k] == '=' ==> k == at
    requires k <= |x| && v <= |x[k..]|
    ensures !IsCandidate(s, x[k..], v)
  {
    var z := x[k..];
    assert forall j :: 0 <= j < |z| ==> z[j] == x[k + j];
    if IsCandidate(s, z, v) {
      var i := ValueBehindEquals(z, v);
    }
  }

  predicate HasNo(c: char, x: string) {
    forall i :: 0 <= i < |x| ==> x[i] != c
  }

  // What is left of such a text: the secret behind the quote that closes the first one.
  function Mispaired(secret: string): string {
    ("token=" + "\"") + (REDACTED + ("\"" + secret + "\""))
  }

  lemma MispairedParts(secret: string)
    requires IsPlain(secret)
    ensures var y := Mispaired(secret);
            && ':' !in y && |y| > 7 && y[5] == '=' && y[6] == '"'
            && (forall k :: 0 <= k < |y| && y[k] == '=' ==> k == 5)
  {
    var y := Mispaired(secret);
    assert y == "token=\"[REDACTED]\"" + (secret + "\"");
    assert forall k :: 0 <= k < 18 ==> y[k] == "token=\"[REDACTED]\""[k];
    assert forall k :: 18 <= k < |y| ==> y[k] == (secret + "\"")[k - 18];
  }

  lemma NoEqualsNoQuoted(x: string)
    requires HasNo('=', x)
    ensures RunPass(Quoted, x) == x
  {
    PassHasShape(Quoted);
    var s := ShapeOf(Quoted);
    forall k, v | 0 <= k <= |x| && 0 <= v <= |x[k..]| ensures !IsCandidate(s, x[k..], v) {
      NoEqualsNoPrefix(x[k..][..v]);
    }
    NothingFound(s, x);
  }

  lemma NoEqualsNoPrefix(y: string)
    requires HasNo('=', y)
    ensures !IsPrefix(Quoted, y)
  {
    if IsPrefix(Quoted, y) {
      StemIsQuiet(Quoted, y[..|y| - 1]);
    }
  }

  lemma TokenOpens()
    ensures IsPrefix(Quoted, "token=" + "\"")
  {
    var y := "token=";
    assert HasWordAt("token", y, 0);
    assert KEYWORDS[2] == "token";
    LengthOfWord(y, "token");
    assert !IsSpace(y[5]);
    assert SpaceEnd(y, 5) == 5 && SpaceEnd(y, 6) == 6;
    assert ("token=" + "\"")[..6] == y;
  }

  lemma QuotedRunOf(s: Shape, kept: string, inner: string, right: string)
    requires IsShape(s) && s.quoted && EndsInOnlyQuote(s) && s.prefix(kept) && HasNo('"', inner) && IsClosing(right)
    ensures Run(s, Around(kept, inner, right)) == kept + (REDACTED + Run(s, right))
  {
    assert kept != "" && kept[|kept| - 1] == '"';
    KeptTextTakes(s, kept, right);
    QuotedRunIsScan(s, kept, inner, right);
  }

  lemma QuotedPassOf(left: string, inner: string, right: string)
    requires IsPrefix(Quoted, left + "\"") && HasNo('"', inner) && HasNo('=', right)
    ensures RunPass(Quoted, Quoting(left, inner, right)) == (left + "\"") + (REDACTED + ("\"" + right))
  {
    PassHasShape(Quoted);
    QuotedEndsInOnlyQuote();
    NoEqualsNoQuoted("\"" + right);
    QuotingIsAround(left, inner, right);
    QuotedRunOf(ShapeOf(Quoted), left + "\"", inner, "\"" + right);
  }

  lemma InnerHasNoQuote()
    ensures HasNo('"', "a password=")
  {
  }

  lemma MispairedPass(secret: string)
    requires IsPlain(secret)
    ensures RunPass(Quoted, Quoting("token=", "a password=", secret + "\"")) == Mispaired(secret)
  {
    TokenOpens();
    InnerHasNoQuote();
    QuotedPassOf("token=", "a password=", secret + "\"");
    Associate("\"", secret, "\"");
  }

  lemma MispairedIsKept(y: string)
    requires ':' !in y && |y| > 7 && y[5] == '=' && y[6] == '"'
    requires forall k :: 0 <= k < |y| && y[k] == '=' ==> k == 5
    ensures RunPass(Assignment, RunPass(Colon, RunPass(Bearer, y))) == y
  {
    NoColonNoMatch(Bearer, y);
    NoColonNoMatch(Colon, y);
    QuoteIsNoValue(y, 5);
  }

  // The quote in front of the secret closes the one behind token=, so the secret stays.
  lemma MispairedSecretStays(secret: string)
    requires IsPlain(secret)
    ensures RedactLikelySecret("token=\"a password=\"" + secret + "\"") == "token=\"[REDACTED]\"" + secret + "\""
  {
    var x, y := Quoting("token=", "a password=", secret + "\""), Mispaired(secret);
    assert x == "token=\"a password=\"" + secret + "\"";
    assert y == "token=\"[REDACTED]\"" + secret + "\"";
    MispairedPass(secret);
    MispairedParts(secret);
    MispairedIsKept(y);
    PatternsArePasses(x);
  }

  // ---- A quote that is closed again does no harm ----

  lemma NothingOpensHere(s: Shape, left: string, rest: string, right: string)
    requires IsShape(s) && 2 <= |left| && !CanStart(left[0], left[1]) && rest == left[1..]
    ensures Scan(s, left, right) == Prepend([left[0]], Scan(s, rest, right))
  {
    assert forall v :: 0 <= v <= |left| && s.prefix(left[..v]) ==> IsPrefixText(left[..v]);
    assert forall v :: 2 <= v <= |left| ==> left[..v][0] == left[0] && left[..v][1] == left[1];
  }

  // Behind a closed assignment and a space, a kept text takes the secret.
  lemma NextIsTaken(s: Shape, left: string, kept: string, first: string, next: string, right: string)
    requires IsShape(s) && s.quoted && EndsInOnlyQuote(s) && s.prefix(kept) && s.prefix(next) && '"' !in first
    requires left == kept + (first + ("\"" + (" " + next))) && IsClosing(right)
    ensures Scan(s, left, right).Taken?
  {
    ClosedIsPassed(s, left, kept, first, " " + next, right);
    assert next != "";
    NothingOpensHere(s, "\"" + (" " + next), " " + next, right);
    NothingOpensHere(s, " " + next, next, right);
    KeptTextTakes(s, next, right);
  }

  lemma ClosedAndNext(kept: string, first: string, next: string, quote: string)
    ensures kept + (first + ("\"" + (" " + next))) + quote == kept + (first + ("\"" + (" " + (next + quote))))
  {
  }

  // The second secret of a line, as in token="a" password="b", is hidden like the first.
  lemma SecondSecretIsHidden(kept: string, first: string, next: string, right: string)
    requires IsPrefix(Quoted, kept) && '"' !in first && IsPrefix(Quoted, next + "\"")
    ensures IsHidden(RedactLikelySecret, kept + (first + ("\"" + (" " + next))), right)
  {
    var left := kept + (first + ("\"" + (" " + next)));
    PassHasShape(Quoted);
    QuotedEndsInOnlyQuote();
    ClosedAndNext(kept, first, next, "\"");
    NextIsTaken(ShapeOf(Quoted), left + "\"", kept, first, next + "\"", "\"" + right);
    TakenIsHidden(left, right);
  }

  // ---- A keyword that is taken for a value ----

  lemma NoQuoteNoMatch(x: string)
    requires HasNo('"', x)
    ensures RunPass(Quoted, x) == x
  {
    PassHasShape(Quoted);
    var s := ShapeOf(Quoted);
    assert forall k :: 0 <= k <= |x| ==> HasNo('"', x[k..]);
    NothingFound(s, x);
  }

  lemma NoEqualsNoAssignment(x: string)
    requires HasNo('=', x)
    ensures RunPass(Assignment, x) == x
  {
    PassHasShape(Assignment);
    var s := ShapeOf(Assignment);
    forall k, v | 0 <= k <= |x| && 0 <= v <= |x[k..]| ensures !IsCandidate(s, x[k..], v) {
      NoEqualsNoCandidate(s, x, k, v);
    }
    NothingFound(s, x);
  }

  lemma NoEqualsNoCandidate(s: Shape, x: string, k: nat, v: nat)
    requires s == ShapeOf(Assignment) && HasNo('=', x) && k <= |x| && v <= |x[k..]|
    ensures !IsCandidate(s, x[k..], v)
  {
    if IsCandidate(s, x[k..], v) {
      var i := ValueBehindEquals(x[k..], v);
    }
  }

  // A text that starts like the one below, character by character.
  predicate IsTwice(x: string) {
    && 20 <= |x| && HasWordAt("password", x, 0) && x[8] == '=' && x[9] == ' ' && x[18] == '=' && x[19] == ' '
    && forall k :: 10 <= k < 19 ==> !IsSpace(x[k]) && x[k] != '"'
  }

  lemma FirstStem(x: string)
    requires IsTwice(x)
    ensures Stem(Assignment, x) == 9 && SpaceEnd(x, 9) == 10
  {
    assert KEYWORDS[0] == "password";
    LengthOfWord(x, "password");
    assert SpaceEnd(x, 8) == 8;
    assert SpaceEnd(x, 10) == 10;
  }

  lemma FirstTakesSecond(x: string)
    requires IsTwice(x)
    ensures FindValue(ShapeOf(Assignment), x) == Found(10, 19)
  {
    var s := ShapeOf(Assignment);
    FirstStem(x);
    forall v: nat | v <= |x| ensures IsPrefix(Assignment, x[..v]) <==> 9 <= v <= 10 {
      StemAndSpacesOfPart(Assignment, x, v);
    }
    assert IsCandidate(s, x, 10);
    ValueEndIs(s, x, 10, 19);
  }

  lemma TwiceIsReplaced(x: string, rest: string)
    requires IsTwice(x) && rest == x[19..] && HasNo('=', rest)
    ensures RunPass(Assignment, x) == x[..10] + (REDACTED + rest)
  {
    PassHasShape(Assignment);
    FirstTakesSecond(x);
    NoEqualsNoAssignment(rest);
    assert |x[..10]| + |rest| <= |x| && |x| - |rest| == 19;
    RunReplaces(ShapeOf(Assignment), x, x[..10], rest);
  }

  lemma TwiceParts(x: string, secret: string)
    requires IsPlain(secret) && x == "password= password= " + secret
    ensures IsTwice(x) && HasNo('"', x) && ':' !in x && HasNo('=', x[19..])
    ensures x[..10] == "password= " && x[19..] == " " + secret
  {
    var head := "password= password= ";
    assert forall k :: 0 <= k < 20 ==> x[k] == head[k];
    assert forall k :: 20 <= k < |x| ==> x[k] == secret[k - 20];
    assert forall k :: 0 <= k < 8 ==> Lower(head[k]) == "password"[k];
  }

  lemma TwiceIsRedacted(x: string, rest: string)
    requires IsTwice(x) && HasNo('"', x) && ':' !in x && rest == x[19..] && HasNo('=', rest)
    ensures RedactLikelySecret(x) == x[..10] + (REDACTED + rest)
  {
    NoQuoteNoMatch(x);
    NoColonNoMatch(Bearer, x);
    NoColonNoMatch(Colon, x);
    TwiceIsReplaced(x, rest);
    PatternsArePasses(x);
  }

  lemma TwiceText(secret: string)
    ensures "password= " + (REDACTED + (" " + secret)) == "password= [REDACTED] " + secret
  {
  }

  // The first value is the second keyword with its separator, so the secret behind the next space stays.
  lemma SpacedSecretStays(x: string, secret: string)
    requires IsPlain(secret) && x == "password= password= " + secret
    ensures RedactLikelySecret(x) == "password= [REDACTED] " + secret
  {
    TwiceParts(x, secret);
    TwiceIsRedacted(x, x[19..]);
    TwiceText(secret);
  }
}
