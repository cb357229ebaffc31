/** The secret keywords: at most one starts a text, and none has the start of another
  * pattern inside.
  */
module Keywords {
  import opened Text

  const KEYWORDS := ["password", "passwd", "token", "secret", "apikey", "api_key", "api-key"]

  // The first of the words that x starts with, "" if there is none.
  function FirstWord(x: string, words: seq<string>): (word: string)
    ensures word == "" || word in words
    ensures HasWordAt(word, x, 0)
  {
    if words == [] then ""
    else if HasWordAt(words[0], x, 0) then words[0]
    else FirstWord(x, words[1..])
  }

  // Length of the keyword at the head of x, 0 if there is none.
  function KeywordLength(x: string): (n: nat)
    ensures n <= |x|
  {
    |FirstWord(x, KEYWORDS)|
  }

  // ---- No text starts with two keywords ----

  lemma {:induction false} OnlyWordIsFirst(x: string, words: seq<string>, word: string)
    requires HasWordAt(word, x, 0) && word in words && word != ""
    requires forall k :: 0 <= k < |words| && words[k] != word ==> !HasWordAt(words[k], x, 0)
    ensures FirstWord(x, words) == word
  {
    if words[0] != word {
      assert forall k :: 0 <= k < |words[1..]| ==> words[1..][k] == words[k + 1];
      OnlyWordIsFirst(x, words[1..], word);
    }
  }

  // How the three spellings of the API key are told apart.
  lemma ApiKeySpellings(x: string)
    ensures HasWordAt("apikey", x, 0) <==> HasWordAt("api", x, 0) && HasWordAt("key", x, 3)
    ensures HasWordAt("api_key", x, 0) <==> HasWordAt("api", x, 0) && HasWordAt("_", x, 3) && HasWordAt("key", x, 4)
    ensures HasWordAt("api-key", x, 0) <==> HasWordAt("api", x, 0) && HasWordAt("-", x, 3) && HasWordAt("key", x, 4)
  {
    assert "apikey" == "api" + "key" && "api_key" == "api_" + "key" && "api-key" == "api-" + "key";
    assert "api_" == "api" + "_" && "api-" == "api" + "-";
    WordSplits("api", "key", x, 0);
    WordSplits("api_", "key", x, 0);
    WordSplits("api-", "key", x, 0);
    WordSplits("api", "_", x, 0);
    WordSplits("api", "-", x, 0);
  }

  // The first letter, and the sixth of the two words that share it.
  lemma KeywordLetters(x: string)
    ensures HasWordAt("password", x, 0) ==> Lower(x[0]) == 'p' && Lower(x[5]) == 'o'
    ensures HasWordAt("passwd", x, 0) ==> Lower(x[0]) == 'p' && Lower(x[5]) == 'd'
    ensures HasWordAt("token", x, 0) ==> Lower(x[0]) == 't'
    ensures HasWordAt("secret", x, 0) ==> Lower(x[0]) == 's'
    ensures HasWordAt("api", x, 0) ==> Lower(x[0]) == 'a'
  {
    FirstLetter("password", x, 0);
    FirstLetter("passwd", x, 0);
    FirstLetter("token", x, 0);
    FirstLetter("secret", x, 0);
    FirstLetter("api", x, 0);
    assert HasWordAt("password", x, 0) ==> Lower(x[0 + 5]) == "password"[5];
    assert HasWordAt("passwd", x, 0) ==> Lower(x[0 + 5]) == "passwd"[5];
  }

  lemma KeywordIsFirst(x: string, word: string)
    requires word in KEYWORDS && HasWordAt(word, x, 0)
    ensures FirstWord(x, KEYWORDS) == word
  {
    KeywordLetters(x);
    ApiKeySpellings(x);
    FirstLetter("key", x, 3);
    FirstLetter("_", x, 3);
    FirstLetter("-", x, 3);
    OnlyWordIsFirst(x, KEYWORDS, word);
  }

  lemma KeywordOfPart(x: string, g: nat)
    requires g <= |x|
    ensures KeywordLength(x[..g]) == if KeywordLength(x) <= g then KeywordLength(x) else 0
  {
    if 0 < KeywordLength(x[..g]) {
      var word := FirstWord(x[..g], KEYWORDS);
      WordOfPart(word, x, 0, g);
      KeywordIsFirst(x, word);
    } else if 0 < KeywordLength(x) <= g {
      var word := FirstWord(x, KEYWORDS);
      WordOfPart(word, x, 0, g);
      KeywordIsFirst(x[..g], word);
    }
  }

  // ---- Nothing starts inside a keyword ----

  // The first two letters of the words that a match can start with.
  predicate CanStart(c: char, d: char) {
    || (Lower(c) == 'p' && Lower(d) == 'a')
    || (Lower(c) == 't' && Lower(d) == 'o')
    || (Lower(c) == 's' && Lower(d) == 'e')
    || (Lower(c) == 'a' && (Lower(d) == 'p' || Lower(d) == 'u'))
  }

  // What can come after the words of a match and before its value.
  predicate EndsPrefix(c: char) {
    IsSpace(c) || c == '=' || c == ':' || c == '"'
  }

  predicate IsBracket(c: char) {
    c == '[' || c == ']'
  }

  // Checks the characters of a word from k on, one by one.
  predicate IsQuietWord(word: string, k: nat := 0)
    requires k <= |word|
    decreases |word| - k
  {
    k == |word| || (
      && !EndsPrefix(word[k]) && Lower(word[k]) == word[k] && !IsBracket(word[k])
      && (0 < k < |word| - 1 ==> !CanStart(word[k], word[k + 1]))
      && IsQuietWord(word, k + 1))
  }

  // A word of at least two characters that is quiet and can start a match.
  predicate IsStartingWord(word: string) {
    2 <= |word| && CanStart(word[0], word[1]) && IsQuietWord(word)
  }

  predicate AreStartingWords(words: seq<string>) {
    words == [] || (IsStartingWord(words[0]) && AreStartingWords(words[1..]))
  }

  lemma PlainKeywordsAreStarting()
    ensures IsStartingWord("password") && IsStartingWord("passwd")
    ensures IsStartingWord("token") && IsStartingWord("secret")
  {
  }

  lemma KeywordsAreStarting()
    ensures AreStartingWords(KEYWORDS)
  {
    PlainKeywordsAreStarting();
    assert IsStartingWord("apikey") && IsStartingWord("api_key") && IsStartingWord("api-key");
  }

  lemma BearerWordsAreQuiet()
    ensures IsStartingWord("authorization") && IsQuietWord("bearer")
  {
  }

  lemma {:induction false} FirstWordIsStarting(x: string, words: seq<string>)
    requires AreStartingWords(words)
    ensures FirstWord(x, words) != "" ==> IsStartingWord(FirstWord(x, words))
  {
    if words != [] {
      FirstWordIsStarting(x, words[1..]);
    }
  }

  lemma {:induction false} QuietAt(word: string, k: nat, j: nat)
    requires k <= j < |word| && IsQuietWord(word, k)
    ensures !EndsPrefix(word[j]) && Lower(word[j]) == word[j] && !IsBracket(word[j])
    ensures 0 < j < |word| - 1 ==> !CanStart(word[j], word[j + 1])
    decreases j - k
  {
    if k < j {
      QuietAt(word, k + 1, j);
    }
  }

  // Between i and j there is no bracket and nothing that could start a match at its
  // second character or later.
  predicate IsQuietPart(x: string, i: nat, j: nat)
    requires i <= j <= |x|
  {
    && (forall k :: i < k < j - 1 ==> !CanStart(x[k], x[k + 1]))
    && (forall k :: i <= k < j ==> !IsBracket(x[k]))
  }

  lemma WordIsQuiet(word: string, x: string, i: nat)
    requires HasWordAt(word, x, i) && IsQuietWord(word)
    ensures IsQuietPart(x, i, i + |word|)
  {
    forall k | i <= k < i + |word|
      ensures !IsBracket(x[k]) && (i < k < i + |word| - 1 ==> !CanStart(x[k], x[k + 1]))
    {
      QuietAt(word, 0, k - i);
      assert Lower(x[i + (k - i)]) == word[k - i];
      assert k + 1 < i + |word| ==> Lower(x[i + (k + 1 - i)]) == word[k + 1 - i];
    }
  }

  lemma KeywordIsQuiet(x: string)
    requires 0 < KeywordLength(x)
    ensures 2 <= KeywordLength(x) && CanStart(x[0], x[1]) && IsQuietPart(x, 0, KeywordLength(x))
  {
    var word := FirstWord(x, KEYWORDS);
    KeywordsAreStarting();
    FirstWordIsStarting(x, KEYWORDS);
    WordIsQuiet(word, x, 0);
    WordStarts(word, x);
  }

  lemma WordStarts(word: string, x: string)
    requires HasWordAt(word, x, 0) && IsStartingWord(word)
    ensures CanStart(x[0], x[1])
  {
    assert Lower(x[0 + 0]) == word[0] && Lower(x[0 + 1]) == word[1];
    QuietAt(word, 0, 0);
    QuietAt(word, 0, 1);
  }

  // Characters that end a prefix keep a part quiet.
  lemma QuietThenEnds(x: string, i: nat, n: nat, j: nat)
    requires i <= n <= j <= |x| && IsQuietPart(x, i, n)
    requires forall k :: n <= k < j ==> EndsPrefix(x[k])
    ensures IsQuietPart(x, i, j)
  {
    forall k | i < k < j - 1 ensures !CanStart(x[k], x[k + 1]) {
      assert k + 1 < n || EndsPrefix(x[k + 1]);
    }
  }
}
