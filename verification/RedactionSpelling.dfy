/** The kept texts spelled out by character codes: the keywords in any casing, and the spaces one by one. */
module RedactionSpelling {
  import opened Text
  import opened Keywords
  import opened RedactionShapes
  import opened RedactionPatterns

  // The same letter in another case, by the codes of the 52 letters, or the same character.
  predicate SameLetter(c: char, d: char) {
    || c == d
    || (65 <= c as int <= 90 && d as int == c as int + 32)
    || (65 <= d as int <= 90 && c as int == d as int + 32)
  }

  predicate IsSpelled(text: string, word: string) {
    |text| == |word| && forall k :: 0 <= k < |text| ==> SameLetter(text[k], word[k])
  }

  predicate IsSecretWord(word: string) {
    || word == "password" || word == "passwd" || word == "token" || word == "secret"
    || word == "apikey" || word == "api_key" || word == "api-key"
  }

  predicate HasNoCapital(word: string) {
    forall k :: 0 <= k < |word| ==> !(65 <= word[k] as int <= 90)
  }

  // ---- Words ----

  lemma SecretWordIsKeyword(word: string)
    requires IsSecretWord(word)
    ensures word in KEYWORDS && HasNoCapital(word) && word != ""
    ensures forall k :: 0 <= k < |word| ==> !IsSpace(word[k]) && word[k] != '"' && word[k] != '=' && word[k] != ':'
  {
    assert KEYWORDS[0] == "password" && KEYWORDS[1] == "passwd" && KEYWORDS[2] == "token" && KEYWORDS[3] == "secret";
    assert KEYWORDS[4] == "apikey" && KEYWORDS[5] == "api_key" && KEYWORDS[6] == "api-key";
  }

  lemma SpelledIsWord(x: string, i: nat, word: string)
    requires HasNoCapital(word) && i + |word| <= |x| && IsSpelled(x[i..i + |word|], word)
    ensures HasWordAt(word, x, i)
  {
    var text := x[i..i + |word|];
    assert forall k :: 0 <= k < |text| ==> text[k] == x[i + k];
  }

  lemma SpelledIsSolid(text: string, word: string)
    requires IsSpelled(text, word)
    requires forall k :: 0 <= k < |word| ==> !IsSpace(word[k]) && word[k] != '"' && word[k] != '=' && word[k] != ':'
    ensures forall k :: 0 <= k < |text| ==> !IsSpace(text[k]) && text[k] != '"' && text[k] != '=' && text[k] != ':'
  {
    forall k | 0 <= k < |text| ensures !IsSpace(text[k]) && text[k] != '"' && text[k] != '=' && text[k] != ':' {
      assert SameLetter(text[k], word[k]);
    }
  }

  // ---- Kept texts ----

  // Where the parts of a text before a value are: the word up to n, the separator at m, then spaces.
  predicate IsLaidOut(y: string, n: nat, m: nat, separator: char) {
    && n <= m < |y| && y[m] == separator && !IsSpace(separator)
    && (forall k :: n <= k < m ==> IsSpace(y[k])) && (forall k :: m < k < |y| ==> IsSpace(y[k]))
  }

  lemma LaidOut(w: string, a: string, separator: char, b: string)
    requires AreSpaces(a) && AreSpaces(b) && !IsSpace(separator)
    ensures var y := w + a + [separator] + b;
            IsLaidOut(y, |w|, |w| + |a|, separator) && y[..|w|] == w && y[0..|w|] == w
  {
    var y := w + a + [separator] + b;
    assert forall k :: |w| <= k < |w| + |a| ==> y[k] == a[k - |w|];
    assert forall k :: |w| + |a| < k < |y| ==> y[k] == b[k - |w| - |a| - 1];
  }

  lemma StemOfLaidOut(y: string, word: string, n: nat, m: nat, separator: char)
    requires word in KEYWORDS && HasWordAt(word, y, 0) && n == |word| && IsLaidOut(y, n, m, separator) && word != ""
    ensures KeywordStem(y, separator) == m + 1 && SpaceEnd(y, m + 1) == |y|
  {
    LengthOfWord(y, word);
    RunEndIs(IsSpace, y, n, m);
    RunEndIs(IsSpace, y, m + 1, |y|);
  }

  // The separator of the pattern, by the character.
  function Separator(p: Pass): char {
    match p
    case Quoted => '='
    case Bearer => ':'
    case Colon => ':'
    case Assignment => '='
  }

  lemma KeywordTextIsStem(p: Pass, word: string, w: string, a: string, b: string)
    requires !p.Bearer? && IsSecretWord(word) && IsSpelled(w, word) && AreSpaces(a) && AreSpaces(b)
    ensures IsStemAndSpaces(p, w + a + [Separator(p)] + b)
  {
    var y := w + a + [Separator(p)] + b;
    SecretWordIsKeyword(word);
    LaidOut(w, a, Separator(p), b);
    SpelledIsWord(y, 0, word);
    StemOfLaidOut(y, word, |w|, |w| + |a|, Separator(p));
  }

  // A keyword in any casing, spaces, the separator and spaces are what the pattern keeps.
  lemma KeywordTextIsKept(p: Pass, word: string, w: string, a: string, b: string)
    requires (p == Colon || p == Assignment) && IsSecretWord(word) && IsSpelled(w, word)
    requires AreSpaces(a) && AreSpaces(b)
    ensures IsPrefix(p, w + a + [Separator(p)] + b)
  {
    KeywordTextIsStem(p, word, w, a, b);
  }

  lemma QuotedTextIsKept(word: string, w: string, a: string, b: string)
    requires IsSecretWord(word) && IsSpelled(w, word) && AreSpaces(a) && AreSpaces(b)
    ensures IsPrefix(Quoted, w + a + "=" + b + "\"")
  {
    KeywordTextIsStem(Quoted, word, w, a, b);
    var y := w + a + "=" + b;
    assert (y + "\"")[..|y|] == y && w + a + ['='] + b == y;
  }

  // Authorization, spaces, a colon, spaces, Bearer, and at least one space.
  lemma BearerTextIsKept(w: string, a: string, b: string, v: string, c: string)
    requires IsSpelled(w, "authorization") && IsSpelled(v, "bearer") && AreSpaces(a) && AreSpaces(b)
    requires AreSpaces(c) && c != ""
    ensures IsPrefix(Bearer, w + a + ":" + b + v + c)
  {
    var y, n, m := w + a + ":" + b + v + c, |w|, |w| + |a|;
    var r := m + 1 + |b|;
    BearerLayout(w, a, b, v, c, y);
    BearerIsSolid(v);
    assert y[r] == y[r..r + 6][0];
    SpelledIsWord(y, 0, "authorization");
    RunEndIs(IsSpace, y, 13, m);
    assert AuthorizationStem(y) == m + 1;
    RunEndIs(IsSpace, y, m + 1, r);
    SpelledIsWord(y, r, "bearer");
    RunEndIs(IsSpace, y, r + 6, |y|);
  }

  lemma SpacesOf(before: string, part: string, after: string, y: string)
    requires y == before + (part + after) && AreSpaces(part)
    ensures forall k :: |before| <= k < |before| + |part| ==> IsSpace(y[k])
  {
    assert forall k :: |before| <= k < |before| + |part| ==> y[k] == part[k - |before|];
  }

  lemma HeadLayout(w: string, a: string, tail: string, y: string)
    requires y == w + (a + (":" + tail)) && AreSpaces(a)
    ensures var m := |w| + |a|; |y| == m + 1 + |tail| && y[m] == ':' && y[0..|w|] == w && y[m + 1..] == tail
    ensures forall k :: |w| <= k < |w| + |a| ==> IsSpace(y[k])
  {
    SpacesOf(w, a, ":" + tail, y);
  }

  lemma TailLayout(b: string, v: string, c: string, tail: string)
    requires tail == b + (v + c) && AreSpaces(b) && AreSpaces(c)
    ensures |tail| == |b| + |v| + |c| && tail[|b|..|b| + |v|] == v
    ensures forall k :: 0 <= k < |b| ==> IsSpace(tail[k])
    ensures forall k :: |b| + |v| <= k < |tail| ==> IsSpace(tail[k])
  {
    SpacesOf("", b, v + c, tail);
    assert tail == (b + v) + (c + "");
    SpacesOf(b + v, c, "", tail);
  }

  lemma BearerLayout(w: string, a: string, b: string, v: string, c: string, y: string)
    requires IsSpelled(w, "authorization") && IsSpelled(v, "bearer") && AreSpaces(a) && AreSpaces(b) && AreSpaces(c)
    requires y == w + a + ":" + b + v + c
    ensures var m := |w| + |a|;
            var r := m + 1 + |b|;
            && |y| == r + 6 + |c| && y[m] == ':' && y[0..13] == w && y[r..r + 6] == v
            && (forall k :: 13 <= k < m ==> IsSpace(y[k])) && (forall k :: m < k < r ==> IsSpace(y[k]))
            && (forall k :: r + 6 <= k < |y| ==> IsSpace(y[k]))
  {
    var m, tail := |w| + |a|, b + (v + c);
    assert y == w + (a + (":" + tail));
    HeadLayout(w, a, tail, y);
    TailLayout(b, v, c, tail);
    assert forall k :: m < k < |y| ==> y[k] == tail[k - m - 1];
    assert y[m + 1 + |b|..m + 1 + |b| + 6] == tail[|b|..|b| + 6];
  }

  lemma BearerIsSolid(v: string)
    requires IsSpelled(v, "bearer")
    ensures !IsSpace(v[0]) && HasNoCapital("authorization") && HasNoCapital("bearer")
  {
    assert SameLetter(v[0], "bearer"[0]);
  }
}
