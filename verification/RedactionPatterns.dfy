/** The redactor as the source writes it, four regular-expression replacements in a
  * row, and its agreement with the scanners.
  */
module RedactionPatterns {
  import opened Text
  import opened Keywords
  import opened Replacing
  import opened RedactionScan
  import opened RedactionShapes
  import opened Regex
  import opened Redaction

  const SPACES := Star(IsSpace)

  const KEYWORD := Alt(Word("password"), Alt(Word("passwd"), Alt(Word("token"), Alt(Word("secret"), API_KEY))))

  const API_KEY := Cat(Word("api"), DASHED_KEY)

  const DASHED_KEY := Cat(Maybe(IsDash), Word("key"))

  // [_-]
  predicate IsDash(c: char) {
    c == '_' || c == '-'
  }

  // [^"]
  predicate IsNotQuote(c: char) {
    c != '"'
  }

  // [^ \n\r\t]
  predicate IsNotBlank(c: char) {
    !IsBlank(c)
  }

  // [^" \n\r\t]
  predicate IsNotBlankOrQuote(c: char) {
    !IsBlank(c) && c != '"'
  }

  // ((password|passwd|token|secret|api[_-]?key)\s*=\s*) and the same with a colon
  function KeywordKept(separator: string): Regex {
    Cat(KEYWORD, Cat(Cat(SPACES, Word(separator)), SPACES))
  }

  // (Authorization\s*:\s*Bearer\s+)
  const BEARER_KEPT :=
    Cat(Word("authorization"), Cat(Cat(SPACES, Word(":")), Cat(Cat(SPACES, Word("bearer")), Plus(IsSpace))))

  // "[^"]*"
  const QUOTED_VALUE := Cat(Word("\""), Cat(Star(IsNotQuote), Word("\"")))

  function SeparatorOf(p: Pass): string {
    if p.Colon? then ":" else "="
  }

  // What follows the kept group.
  function RestOf(p: Pass): Regex {
    match p
    case Quoted => QUOTED_VALUE
    case Bearer => Plus(IsNotBlank)
    case Colon => Plus(IsNotBlank)
    case Assignment => Plus(IsNotBlankOrQuote)
  }

  function PatternOf(p: Pass): Pattern {
    Pattern(if p.Bearer? then BEARER_KEPT else KeywordKept(SeparatorOf(p)), RestOf(p))
  }

  function ReplacementOf(p: Pass): string {
    if p.Quoted? then "\"[REDACTED]\"" else "[REDACTED]"
  }

  function ReplacePattern(p: Pass, x: string): string {
    RegexReplace(PatternOf(p), ReplacementOf(p), x)
  }

  type Redactor = string -> string

  function RedactLikelySecret(x: string): string {
    ReplacePattern(Assignment, ReplacePattern(Colon, ReplacePattern(Bearer, ReplacePattern(Quoted, x))))
  }

  // ---- Keywords ----

  lemma DashEnds(x: string)
    requires 3 <= |x|
    ensures Ends(Maybe(IsDash), x, 3) == if HasWordAt("_", x, 3) || HasWordAt("-", x, 3) then [4, 3] else [3]
  {
    FirstLetter("_", x, 3);
    FirstLetter("-", x, 3);
  }

  lemma DashedKeyEnds(x: string)
    requires 3 <= |x|
    ensures Ends(DASHED_KEY, x, 3) ==
            if HasWordAt("key", x, 3) then [6]
            else if (HasWordAt("_", x, 3) || HasWordAt("-", x, 3)) && HasWordAt("key", x, 4) then [7]
            else []
  {
    DashEnds(x);
    FirstLetter("key", x, 3);
    FirstLetter("_", x, 3);
    FirstLetter("-", x, 3);
    EndsOfOne(Word("key"), x, 3, 3);
    if HasWordAt("_", x, 3) || HasWordAt("-", x, 3) {
      assert [4, 3][1..] == [3];
    }
  }

  lemma ApiKeyEnds(x: string)
    ensures Ends(API_KEY, x, 0) ==
            if HasWordAt("apikey", x, 0) then [6]
            else if HasWordAt("api_key", x, 0) || HasWordAt("api-key", x, 0) then [7]
            else []
  {
    ApiKeySpellings(x);
    if HasWordAt("api", x, 0) {
      EndsOfOne(DASHED_KEY, x, 0, 3);
      DashedKeyEnds(x);
    }
  }

  lemma KeywordAlternatives(x: string)
    ensures Ends(KEYWORD, x, 0) ==
            Ends(Word("password"), x, 0) + (Ends(Word("passwd"), x, 0) +
            (Ends(Word("token"), x, 0) + (Ends(Word("secret"), x, 0) + Ends(API_KEY, x, 0))))
  {
    var last := Alt(Word("secret"), API_KEY);
    assert Ends(last, x, 0) == Ends(Word("secret"), x, 0) + Ends(API_KEY, x, 0);
    var third := Alt(Word("token"), last);
    assert Ends(third, x, 0) == Ends(Word("token"), x, 0) + Ends(last, x, 0);
    var second := Alt(Word("passwd"), third);
    assert Ends(second, x, 0) == Ends(Word("passwd"), x, 0) + Ends(third, x, 0);
  }

  lemma LengthOfWord(x: string, word: string)
    requires word in KEYWORDS
    ensures HasWordAt(word, x, 0) ==> KeywordLength(x) == |word|
  {
    if HasWordAt(word, x, 0) {
      KeywordIsFirst(x, word);
    }
  }

  lemma KeywordLengthByWord(x: string)
    ensures HasWordAt("password", x, 0) ==> KeywordLength(x) == 8
    ensures HasWordAt("passwd", x, 0) || HasWordAt("secret", x, 0) || HasWordAt("apikey", x, 0) ==>
              KeywordLength(x) == 6
    ensures HasWordAt("token", x, 0) ==> KeywordLength(x) == 5
    ensures HasWordAt("api_key", x, 0) || HasWordAt("api-key", x, 0) ==> KeywordLength(x) == 7
  {
    LengthOfWord(x, "password");
    LengthOfWord(x, "passwd");
    LengthOfWord(x, "token");
    LengthOfWord(x, "secret");
    LengthOfWord(x, "apikey");
    LengthOfWord(x, "api_key");
    LengthOfWord(x, "api-key");
  }

  lemma KeywordEnds(x: string)
    ensures Ends(KEYWORD, x, 0) == if KeywordLength(x) > 0 then [KeywordLength(x)] else []
  {
    KeywordAlternatives(x);
    ApiKeyEnds(x);
    WordEndsAreLength(x);
    OneOfFive(Ends(Word("password"), x, 0), Ends(Word("passwd"), x, 0), Ends(Word("token"), x, 0),
              Ends(Word("secret"), x, 0), Ends(API_KEY, x, 0), KeywordLength(x));
  }

  predicate IsOneOrNone(ends: seq<nat>, n: nat) {
    ends == [] || ends == [n]
  }

  // Of five lists at most one has an end in it.
  lemma OneOfFive(a: seq<nat>, b: seq<nat>, c: seq<nat>, d: seq<nat>, e: seq<nat>, n: nat)
    requires IsOneOrNone(a, n) && IsOneOrNone(b, n) && IsOneOrNone(c, n) && IsOneOrNone(d, n) && IsOneOrNone(e, n)
    requires |a| + |b| + |c| + |d| + |e| == if n > 0 then 1 else 0
    ensures a + (b + (c + (d + e))) == if n > 0 then [n] else []
  {
  }

  lemma WordEndsAreLength(x: string)
    ensures var a, b, c, d, e := Ends(Word("password"), x, 0), Ends(Word("passwd"), x, 0), Ends(Word("token"), x, 0),
                                 Ends(Word("secret"), x, 0), Ends(API_KEY, x, 0);
            && IsOneOrNone(a, KeywordLength(x)) && IsOneOrNone(b, KeywordLength(x))
            && IsOneOrNone(c, KeywordLength(x)) && IsOneOrNone(d, KeywordLength(x))
            && IsOneOrNone(e, KeywordLength(x))
            && |a| + |b| + |c| + |d| + |e| == if KeywordLength(x) > 0 then 1 else 0
  {
    KeywordLetters(x);
    ApiKeySpellings(x);
    ApiKeyEnds(x);
    KeywordLengthByWord(x);
    var word := FirstWord(x, KEYWORDS);
    assert word in KEYWORDS ==> HasWordAt(word, x, 0);
  }

  // ---- The ends of the kept groups ----

  lemma SeparatorEnds(separator: string, last: Regex, x: string, i: nat)
    requires i <= |x| && (separator == "=" || separator == ":")
    ensures var n := AfterSeparator(x, i, separator[0]);
            Ends(Cat(Cat(SPACES, Word(separator)), last), x, i) == if n > 0 then Ends(last, x, n) else []
  {
    assert forall c :: Lower(c) == separator[0] ==> !IsSpace(c);
    SpacedWordThen(IsSpace, separator, last, x, i);
    FirstLetter(separator, x, SpaceEnd(x, i));
  }

  lemma BearerWordEnds(last: Regex, x: string, i: nat)
    requires i <= |x|
    ensures Ends(Cat(Cat(SPACES, Word("bearer")), last), x, i) ==
            if HasWordAt("bearer", x, SpaceEnd(x, i)) then Ends(last, x, SpaceEnd(x, i) + 6) else []
  {
    assert forall c :: Lower(c) == "bearer"[0] ==> !IsSpace(c);
    SpacedWordThen(IsSpace, "bearer", last, x, i);
  }

  lemma KeywordStemEnds(keyword: Regex, separator: string, last: Regex, x: string)
    requires separator == "=" || separator == ":"
    requires Ends(keyword, x, 0) == if KeywordLength(x) > 0 then [KeywordLength(x)] else []
    ensures var n := KeywordStem(x, separator[0]);
            Ends(Cat(keyword, Cat(Cat(SPACES, Word(separator)), last)), x, 0) == if n > 0 then Ends(last, x, n) else []
  {
    CatEnds(keyword, Cat(Cat(SPACES, Word(separator)), last), x, 0);
    if KeywordLength(x) > 0 {
      SeparatorEnds(separator, last, x, KeywordLength(x));
    }
  }

  lemma AuthorizationEnds(first: Regex, last: Regex, x: string)
    requires Ends(first, x, 0) == if HasWordAt("authorization", x, 0) then [13] else []
    ensures var n := AuthorizationStem(x);
            Ends(Cat(first, Cat(Cat(SPACES, Word(":")), last)), x, 0) == if n > 0 then Ends(last, x, n) else []
  {
    CatEnds(first, Cat(Cat(SPACES, Word(":")), last), x, 0);
    if HasWordAt("authorization", x, 0) {
      SeparatorEnds(":", last, x, 13);
    }
  }

  lemma BearerStemEnds(first: Regex, last: Regex, x: string)
    requires Ends(first, x, 0) == if HasWordAt("authorization", x, 0) then [13] else []
    ensures var n := BearerStem(x);
            Ends(Cat(first, Cat(Cat(SPACES, Word(":")), Cat(Cat(SPACES, Word("bearer")), last))), x, 0) ==
            if n > 0 then Ends(last, x, n) else []
  {
    AuthorizationEnds(first, Cat(Cat(SPACES, Word("bearer")), last), x);
    if AuthorizationStem(x) > 0 {
      BearerWordEnds(last, x, AuthorizationStem(x));
    }
  }

  // Where the kept group can end.
  function KeptEnds(p: Pass, x: string): seq<nat> {
    var n := Stem(p, x);
    if n == 0 then [] else CountDown(SpaceEnd(x, n), n + SpacesNeeded(p))
  }

  lemma BearerKeptEnds(first: Regex, last: Regex, x: string)
    requires first == Word("authorization") && last == Plus(IsSpace)
    ensures Ends(Cat(first, Cat(Cat(SPACES, Word(":")), Cat(Cat(SPACES, Word("bearer")), last))), x, 0) ==
            KeptEnds(Bearer, x)
  {
    BearerStemEnds(first, last, x);
  }

  lemma KeywordKeptEnds(p: Pass, keyword: Regex, last: Regex, x: string)
    requires !p.Bearer? && last == SPACES
    requires Ends(keyword, x, 0) == if KeywordLength(x) > 0 then [KeywordLength(x)] else []
    ensures Ends(Cat(keyword, Cat(Cat(SPACES, Word(SeparatorOf(p))), last)), x, 0) == KeptEnds(p, x)
  {
    StemBySeparator(p, x);
    KeywordStemEnds(keyword, SeparatorOf(p), last, x);
    SpacesEnd(p, last, x);
  }

  lemma StemBySeparator(p: Pass, x: string)
    requires !p.Bearer?
    ensures SeparatorOf(p) == "=" || SeparatorOf(p) == ":"
    ensures Stem(p, x) == KeywordStem(x, SeparatorOf(p)[0])
  {
  }

  lemma SpacesEnd(p: Pass, last: Regex, x: string)
    requires !p.Bearer? && last == SPACES
    ensures KeptEnds(p, x) == if Stem(p, x) > 0 then Ends(last, x, Stem(p, x)) else []
  {
  }

  lemma KeywordPatternEnds(p: Pass, x: string)
    requires !p.Bearer?
    ensures Ends(KeywordKept(SeparatorOf(p)), x, 0) == KeptEnds(p, x)
  {
    KeywordEnds(x);
    KeywordKeptEnds(p, KEYWORD, SPACES, x);
  }

  lemma KeptEndsAreEnds(p: Pass, x: string)
    ensures Ends(PatternOf(p).kept, x, 0) == KeptEnds(p, x)
  {
    if p.Bearer? {
      BearerKeptEnds(Word("authorization"), Plus(IsSpace), x);
    } else {
      KeywordPatternEnds(p, x);
    }
  }

  // ---- What follows the kept group ----

  lemma {:induction false} ValueEndIsRunEnd(s: Shape, accepts: char -> bool, x: string, v: nat)
    requires v <= |x| && forall c :: s.isValue(c) <==> accepts(c)
    ensures ValueEnd(s, x, v) == RunEnd(accepts, x, v)
    decreases |x| - v
  {
    if v < |x| && accepts(x[v]) {
      ValueEndIsRunEnd(s, accepts, x, v + 1);
    }
  }

  lemma PlainRestEnds(p: Pass, x: string, v: nat)
    requires !p.Quoted? && v <= |x|
    ensures var ends := Ends(RestOf(p), x, v);
            if ValueFollows(ShapeOf(p), x, v) then ends != [] && ends[0] == ValueEnd(ShapeOf(p), x, v) else ends == []
  {
    ValueEndIsRunEnd(ShapeOf(p), if p.Assignment? then IsNotBlankOrQuote else IsNotBlank, x, v);
  }

  lemma ClosedByQuote(x: string, i: nat)
    requires i <= |x|
    ensures '"' in x[i..] <==> RunEnd(IsNotQuote, x, i) < |x|
  {
    var j := RunEnd(IsNotQuote, x, i);
    if j < |x| {
      assert x[i..][j - i] == '"';
    }
    if '"' in x[i..] {
      var k :| 0 <= k < |x[i..]| && x[i..][k] == '"';
      assert !IsNotQuote(x[i + k]);
    }
  }

  lemma QuotedRestEnds(rest: Regex, x: string, g: nat)
    requires rest == QUOTED_VALUE && g <= |x|
    ensures var ends := Ends(rest, x, g);
            if g < |x| && x[g] == '"' && '"' in x[g + 1..]
            then ends == [ValueEnd(ShapeOf(Quoted), x, g + 1) + 1] && x[ValueEnd(ShapeOf(Quoted), x, g + 1)] == '"'
            else ends == []
  {
    QuotedEnds(ShapeOf(Quoted), "\"", x, g);
  }

  lemma QuotedEnds(s: Shape, quote: string, x: string, g: nat)
    requires g <= |x| && |quote| == 1 && quote[0] == '"' && forall c :: s.isValue(c) <==> IsNotQuote(c)
    ensures var ends := Ends(Cat(Word(quote), Cat(Star(IsNotQuote), Word(quote))), x, g);
            if g < |x| && x[g] == '"' && '"' in x[g + 1..]
            then ValueEnd(s, x, g + 1) < |x| && x[ValueEnd(s, x, g + 1)] == '"' && ends == [ValueEnd(s, x, g + 1) + 1]
            else ends == []
  {
    QuoteAt(quote, x, g);
    if g < |x| && x[g] == '"' {
      ClosedEnds(s, quote, x, g + 1);
    }
    QuotedCat(Word(quote), Cat(Star(IsNotQuote), Word(quote)), x, g);
  }

  lemma QuotedCat(first: Regex, last: Regex, x: string, g: nat)
    requires g <= |x| && Ends(first, x, g) == if g < |x| && x[g] == '"' then [g + 1] else []
    ensures Ends(Cat(first, last), x, g) == if g < |x| && x[g] == '"' then Ends(last, x, g + 1) else []
  {
    CatEnds(first, last, x, g);
  }

  // What is not a quote, and then a quote.
  lemma ClosedEnds(s: Shape, quote: string, x: string, i: nat)
    requires i <= |x| && |quote| == 1 && quote[0] == '"' && forall c :: s.isValue(c) <==> IsNotQuote(c)
    ensures var ends := Ends(Cat(Star(IsNotQuote), Word(quote)), x, i);
            if '"' in x[i..]
            then ValueEnd(s, x, i) < |x| && x[ValueEnd(s, x, i)] == '"' && ends == [ValueEnd(s, x, i) + 1]
            else ends == []
  {
    ClosedByQuote(x, i);
    ValueEndIsRunEnd(s, IsNotQuote, x, i);
    QuoteAt(quote, x, RunEnd(IsNotQuote, x, i));
    WordAfterRun(IsNotQuote, quote, x, i);
  }

  lemma QuoteAt(quote: string, x: string, i: nat)
    requires i <= |x| && |quote| == 1 && quote[0] == '"'
    ensures IsOutside(quote, IsNotQuote)
    ensures Ends(Word(quote), x, i) == if i < |x| && x[i] == '"' then [i + 1] else []
  {
    FirstLetter(quote, x, i);
    assert i < |x| && HasWordAt(quote, x, i) ==> Lower(x[i]) == '"';
  }

  // ---- Pattern and scanner find the same match ----

  lemma FirstMatchIsLastEnd(p: Pass, x: string)
    ensures var m, s := FirstMatch(PatternOf(p), x), Stem(p, x);
            if s == 0 then m.NotFound? else IsLastMatch(RestOf(p), x, s + SpacesNeeded(p), SpaceEnd(x, s), m)
  {
    KeptEndsAreEnds(p, x);
    var pattern, s := PatternOf(p), Stem(p, x);
    if 0 < s {
      FirstMatchIsLast(pattern, x, s + SpacesNeeded(p), SpaceEnd(x, s));
    }
  }

  lemma PlainMatchIsFound(p: Pass, x: string)
    requires !p.Quoted?
    ensures FirstMatch(PatternOf(p), x) == FindValue(ShapeOf(p), x)
  {
    var m, f := FirstMatch(PatternOf(p), x), FindValue(ShapeOf(p), x);
    FirstMatchIsLastEnd(p, x);
    if m.Found? {
      StemAndSpacesOfPart(p, x, m.start);
      PlainRestEnds(p, x, m.start);
      assert IsCandidate(ShapeOf(p), x, m.start);
    }
    if f.Found? {
      StemAndSpacesOfPart(p, x, f.start);
      PlainRestEnds(p, x, f.start);
    }
  }

  // The quoted value that starts behind g, if g is a place where a kept group can end.
  predicate IsQuotedAt(x: string, g: nat) {
    g < |x| && 0 < Stem(Quoted, x) <= g <= SpaceEnd(x, Stem(Quoted, x)) && x[g] == '"' && '"' in x[g + 1..]
  }

  lemma QuotedPrefixAt(x: string, g: nat)
    requires g < |x|
    ensures IsPrefix(Quoted, x[..g + 1]) <==> x[g] == '"' && IsStemAndSpaces(Quoted, x[..g])
  {
    assert x[..g + 1][..g] == x[..g];
  }

  lemma QuotedCandidate(s: Shape, x: string, g: nat)
    requires s == ShapeOf(Quoted) && g < |x|
    ensures IsCandidate(s, x, g + 1) <==> IsQuotedAt(x, g)
  {
    StemAndSpacesOfPart(Quoted, x, g);
    QuotedPrefixAt(x, g);
  }

  // The scanner and the pattern agree when they agree on the places where a quoted value
  // can start.
  lemma AgreeOnPlaces(s: Shape, p: Pattern, x: string, places: nat -> bool)
    requires !IsCandidate(s, x, 0) && forall g: nat :: places(g) <==> g < |x| && IsCandidate(s, x, g + 1)
    requires var m := FirstMatch(p, x);
             && (m.Found? ==> places(m.start) && x[m.start] == '"' && m.end == ValueEnd(s, x, m.start + 1) + 1 <= |x|
                              && x[m.end - 1] == '"')
             && (forall g: nat :: places(g) ==> m.Found? && g <= m.start)
    ensures AreQuoted(FirstMatch(p, x), FindValue(s, x), x)
  {
    var m, f := FirstMatch(p, x), FindValue(s, x);
    if f.Found? {
      assert IsCandidate(s, x, f.start - 1 + 1);
      assert places(f.start - 1);
    }
    if m.Found? {
      assert IsCandidate(s, x, m.start + 1);
    }
  }

  lemma PatternFindsQuoted(p: Pattern, x: string)
    requires p == PatternOf(Quoted)
    ensures var m := FirstMatch(p, x);
            && (m.Found? ==> IsQuotedAt(x, m.start) && m.end == ValueEnd(ShapeOf(Quoted), x, m.start + 1) + 1 <= |x|
                             && x[m.end - 1] == '"')
            && (forall g: nat :: IsQuotedAt(x, g) ==> m.Found? && g <= m.start)
  {
    var m, rest := FirstMatch(p, x), RestOf(Quoted);
    FirstMatchIsLastEnd(Quoted, x);
    if m.Found? {
      QuotedRestEnds(rest, x, m.start);
    }
    forall g: nat | IsQuotedAt(x, g) ensures m.Found? && g <= m.start {
      QuotedRestEnds(rest, x, g);
    }
  }

  function QuotedPlaces(x: string): nat -> bool {
    (g: nat) => IsQuotedAt(x, g)
  }

  lemma PlacesOfScanner(s: Shape, x: string, places: nat -> bool)
    requires s == ShapeOf(Quoted) && places == QuotedPlaces(x)
    ensures !IsCandidate(s, x, 0) && forall g: nat :: places(g) <==> g < |x| && IsCandidate(s, x, g + 1)
  {
    assert x[..0] == "";
    forall g: nat ensures places(g) <==> g < |x| && IsCandidate(s, x, g + 1) {
      if g < |x| {
        QuotedCandidate(s, x, g);
      }
    }
  }

  lemma PlacesOfPattern(s: Shape, p: Pattern, x: string, places: nat -> bool)
    requires s == ShapeOf(Quoted) && p == PatternOf(Quoted) && places == QuotedPlaces(x)
    ensures var m := FirstMatch(p, x);
            && (m.Found? ==> places(m.start) && m.start < |x| && x[m.start] == '"'
                             && 0 < m.end == ValueEnd(s, x, m.start + 1) + 1 <= |x| && x[m.end - 1] == '"')
            && (forall g: nat :: places(g) ==> m.Found? && g <= m.start)
  {
    PatternFindsQuoted(p, x);
    assert forall g: nat :: places(g) ==> IsQuotedAt(x, g);
  }

  lemma QuotedMatchIsFound(s: Shape, p: Pattern, x: string)
    requires s == ShapeOf(Quoted) && p == PatternOf(Quoted)
    ensures AreQuoted(FirstMatch(p, x), FindValue(s, x), x)
  {
    var places := QuotedPlaces(x);
    PlacesOfScanner(s, x, places);
    PlacesOfPattern(s, p, x, places);
    AgreeOnPlaces(s, p, x, places);
  }

  // ---- Pattern and scanner replace the same ----

  lemma QuotedPatternIsRun(s: Shape, p: Pattern, x: string)
    requires IsShape(s) && forall y :: AreQuoted(FirstMatch(p, y), FindValue(s, y), y)
    ensures RegexReplace(p, "\"" + REDACTED + "\"", x) == Run(s, x)
  {
    var find := FinderOf(s);
    forall y ensures SeeTheSame(p, "\"" + REDACTED + "\"", find, REDACTED, y) {
      assert AreQuoted(FirstMatch(p, y), FindValue(s, y), y);
      if find(y).Found? {
        NothingStarts(s, y[find(y).end..]);
      }
      QuotedMatchesAreSame(p, find, REDACTED, y);
    }
    ReplacementsAgree(p, "\"" + REDACTED + "\"", find, REDACTED, x);
  }

  lemma PlainPatternIsRun(s: Shape, p: Pattern, x: string)
    requires IsShape(s) && forall y :: FirstMatch(p, y) == FindValue(s, y)
    ensures RegexReplace(p, REDACTED, x) == Run(s, x)
  {
    var find := FinderOf(s);
    forall y ensures SeeTheSame(p, REDACTED, find, REDACTED, y) {
      EqualMatchesAreSame(p, find, REDACTED, y);
    }
    ReplacementsAgree(p, REDACTED, find, REDACTED, x);
  }

  lemma PlainMatchesAreFound(p: Pass, s: Shape, pattern: Pattern)
    requires !p.Quoted? && s == ShapeOf(p) && pattern == PatternOf(p)
    ensures forall y :: FirstMatch(pattern, y) == FindValue(s, y)
  {
    forall y ensures FirstMatch(pattern, y) == FindValue(s, y) {
      PlainMatchIsFound(p, y);
    }
  }

  lemma QuotedMatchesAreFound(s: Shape, pattern: Pattern)
    requires s == ShapeOf(Quoted) && pattern == PatternOf(Quoted)
    ensures forall y :: AreQuoted(FirstMatch(pattern, y), FindValue(s, y), y)
  {
    forall y ensures AreQuoted(FirstMatch(pattern, y), FindValue(s, y), y) {
      QuotedMatchIsFound(s, pattern, y);
    }
  }

  lemma PlainPatternIsPass(p: Pass, s: Shape, pattern: Pattern, x: string)
    requires !p.Quoted? && IsShape(s) && s == ShapeOf(p) && pattern == PatternOf(p)
    ensures RegexReplace(pattern, REDACTED, x) == Run(s, x)
  {
    PlainMatchesAreFound(p, s, pattern);
    PlainPatternIsRun(s, pattern, x);
  }

  lemma QuotedPatternIsPass(s: Shape, pattern: Pattern, x: string)
    requires IsShape(s) && s == ShapeOf(Quoted) && pattern == PatternOf(Quoted)
    ensures RegexReplace(pattern, "\"" + REDACTED + "\"", x) == Run(s, x)
  {
    QuotedMatchesAreFound(s, pattern);
    QuotedPatternIsRun(s, pattern, x);
  }

  // Each regular-expression replacement is the pass with the same name.
  lemma PatternIsPass(p: Pass, x: string)
    ensures ReplacePattern(p, x) == RunPass(p, x)
  {
    PassHasShape(p);
    ReplacementIs(p);
    if p.Quoted? {
      QuotedPatternIsPass(ShapeOf(p), PatternOf(p), x);
    } else {
      PlainPatternIsPass(p, ShapeOf(p), PatternOf(p), x);
    }
  }

  lemma PatternsArePasses(x: string)
    ensures RedactLikelySecret(x) == Redact(x)
  {
    PatternIsPass(Quoted, x);
    var q := RunPass(Quoted, x);
    PatternIsPass(Bearer, q);
    var b := RunPass(Bearer, q);
    PatternIsPass(Colon, b);
    PatternIsPass(Assignment, RunPass(Colon, b));
  }

  // ---- What the redactor promises ----

  lemma RedactingTwiceIsRedactingOnce(x: string)
    ensures RedactLikelySecret(RedactLikelySecret(x)) == RedactLikelySecret(x)
  {
    PatternsArePasses(x);
    PatternsArePasses(Redact(x));
    RedactIsIdempotent(x);
  }

  lemma CleanQuotedMatch(s: Shape, pattern: Pattern, y: string)
    requires IsShape(s) && AreQuoted(FirstMatch(pattern, y), FindValue(s, y), y)
    requires IsCleanHead(FinderOf(s), REDACTED, y)
    ensures var m := FirstMatch(pattern, y); m.Found? ==> y[m.start..m.end] == "\"" + REDACTED + "\""
  {
    var f := FindValue(s, y);
    if f.Found? {
      QuotedPart(y, f.start, f.end, REDACTED);
    }
  }

  lemma QuotedPart(y: string, start: nat, end: nat, text: string)
    requires 0 < start <= end < |y| && y[start - 1] == '"' && y[end] == '"' && y[start..end] == text
    ensures y[start - 1..end + 1] == "\"" + text + "\""
  {
  }

  lemma CleanPlainMatch(s: Shape, pattern: Pattern, y: string)
    requires IsShape(s) && FirstMatch(pattern, y) == FindValue(s, y) && IsCleanHead(FinderOf(s), REDACTED, y)
    ensures var m := FirstMatch(pattern, y); m.Found? ==> y[m.start..m.end] == REDACTED
  {
  }

  lemma CleanMatchIsReplacement(p: Pass, s: Shape, pattern: Pattern, y: string)
    requires IsShape(s) && s == ShapeOf(p) && pattern == PatternOf(p) && IsCleanHead(FinderOf(s), REDACTED, y)
    ensures var m := FirstMatch(pattern, y);
            m.Found? ==> y[m.start..m.end] == if p.Quoted? then "\"" + REDACTED + "\"" else REDACTED
  {
    if p.Quoted? {
      QuotedMatchesAreFound(s, pattern);
      CleanQuotedMatch(s, pattern, y);
    } else {
      PlainMatchesAreFound(p, s, pattern);
      CleanPlainMatch(s, pattern, y);
    }
  }

  lemma RedactedHasNoResidue(p: Pass, x: string)
    ensures HasNoResidue(p, RedactLikelySecret(x))
  {
    PatternsArePasses(x);
    RedactLeavesNoResidue(x);
  }

  lemma NoResidueHead(p: Pass, s: Shape, y: string, k: nat)
    requires k <= |y| && HasNoResidue(p, y) && s == ShapeOf(p)
    ensures IsShape(s) && IsCleanHead(FinderOf(s), REDACTED, y[k..])
  {
    PassHasShape(p);
  }

  lemma CleanPartIsReplaced(p: Pass, y: string, k: nat)
    requires k <= |y| && HasNoResidue(p, y)
    ensures var m := FirstMatch(PatternOf(p), y[k..]);
            m.Found? ==> y[k..][m.start..m.end] == ReplacementOf(p)
  {
    var s, pattern := ShapeOf(p), PatternOf(p);
    NoResidueHead(p, s, y, k);
    CleanMatchIsReplacement(p, s, pattern, y[k..]);
    ReplacementIs(p);
  }

  lemma ReplacementIs(p: Pass)
    ensures ReplacementOf(p) == if p.Quoted? then "\"" + REDACTED + "\"" else REDACTED
  {
  }

  // Whatever a pattern matches in a redacted text, at whatever place, what it would
  // replace is its replacement already.
  lemma NothingLeftToRedact(p: Pass, x: string, k: nat)
    requires k <= |RedactLikelySecret(x)|
    ensures var y := RedactLikelySecret(x)[k..];
            var m := FirstMatch(PatternOf(p), y);
            m.Found? ==> y[m.start..m.end] == ReplacementOf(p)
  {
    RedactedHasNoResidue(p, x);
    CleanPartIsReplaced(p, RedactLikelySecret(x), k);
  }
}
