/** The part of ECMAScript regular expressions that the redactor uses, matched by
  * backtracking: the ends of all matches from a place, in the order they are tried.
  */
module Regex {
  import opened Text
  import opened Replacing

  datatype Regex =
    | Word(word: string)               // letters without regard to case
    | Maybe(accepts: char -> bool)     // [..]?
    | Star(accepts: char -> bool)      // [..]*, greedy
    | Plus(accepts: char -> bool)      // [..]+, greedy
    | Alt(left: Regex, right: Regex)
    | Cat(first: Regex, second: Regex)

  predicate AreWithin(s: seq<nat>, low: nat, high: nat) {
    forall k :: 0 <= k < |s| ==> low <= s[k] <= high
  }

  // high, high - 1, .., low
  function CountDown(high: nat, low: nat): (s: seq<nat>)
    ensures AreWithin(s, low, high)
    ensures low <= high ==> s != [] && s[0] == high
    decreases high
  {
    if high < low then [] else if high == 0 then [0] else [high] + CountDown(high - 1, low)
  }

  function Ends(r: Regex, x: string, i: nat): (s: seq<nat>)
    requires i <= |x|
    ensures AreWithin(s, i, |x|)
    decreases r, 0
  {
    match r
    case Word(word) => if HasWordAt(word, x, i) then [i + |word|] else []
    case Maybe(accepts) => if i < |x| && accepts(x[i]) then [i + 1, i] else [i]
    case Star(accepts) => CountDown(RunEnd(accepts, x, i), i)
    case Plus(accepts) => CountDown(RunEnd(accepts, x, i), i + 1)
    case Alt(a, b) => Ends(a, x, i) + Ends(b, x, i)
    case Cat(a, b) => EndsFromEach(b, x, i, Ends(a, x, i))
  }

  function EndsFromEach(r: Regex, x: string, i: nat, starts: seq<nat>): (s: seq<nat>)
    requires i <= |x| && AreWithin(starts, i, |x|)
    ensures AreWithin(s, i, |x|)
    decreases r, |starts|
  {
    if starts == [] then [] else Ends(r, x, starts[0]) + EndsFromEach(r, x, i, starts[1..])
  }

  // A pattern whose first group is kept and whose rest is replaced.
  datatype Pattern = Pattern(kept: Regex, rest: Regex)

  function FirstOf(rest: Regex, x: string, starts: seq<nat>): (r: Found)
    requires AreWithin(starts, 0, |x|)
    ensures r.Found? ==> r.start <= r.end <= |x|
  {
    if starts == [] then NotFound
    else
      var ends := Ends(rest, x, starts[0]);
      if ends == [] then FirstOf(rest, x, starts[1..]) else Found(starts[0], ends[0])
  }

  // Where the first match at the head of x ends its kept group, and where it ends.
  function FirstMatch(p: Pattern, x: string): (r: Found)
    ensures r.Found? ==> r.start <= r.end <= |x|
  {
    FirstOf(p.rest, x, Ends(p.kept, x, 0))
  }

  // Leftmost matches from left to right, each kept group followed by the replacement.
  // Every match is taken to be non-empty.
  function RegexReplace(p: Pattern, replacement: string, x: string): string
    decreases |x|
  {
    if x == "" then ""
    else
      var m := FirstMatch(p, x);
      if m.NotFound? || m.end == 0 then [x[0]] + RegexReplace(p, replacement, x[1..])
      else x[..m.start] + replacement + RegexReplace(p, replacement, x[m.end..])
  }

  // ---- Shapes of the lists of ends ----

  lemma EndsOfOne(r: Regex, x: string, i: nat, j: nat)
    requires i <= j <= |x|
    ensures EndsFromEach(r, x, i, [j]) == Ends(r, x, j)
  {
    assert EndsFromEach(r, x, i, [j][1..]) == [];
  }

  lemma CatEnds(a: Regex, b: Regex, x: string, i: nat)
    requires i <= |x| && |Ends(a, x, i)| <= 1
    ensures Ends(Cat(a, b), x, i) == if Ends(a, x, i) == [] then [] else Ends(b, x, Ends(a, x, i)[0])
  {
    if Ends(a, x, i) != [] {
      assert Ends(a, x, i) == [Ends(a, x, i)[0]];
      EndsOfOne(b, x, i, Ends(a, x, i)[0]);
    }
  }

  lemma CountDownIsWithin(high: nat, low: nat, limit: nat)
    requires high <= limit
    ensures AreWithin(CountDown(high, low), low, limit)
  {
  }

  lemma CountDownRest(high: nat, low: nat)
    requires low <= high
    ensures CountDown(high, low) != [] && CountDown(high, low)[0] == high
    ensures CountDown(high, low)[1..] == if low < high then CountDown(high - 1, low) else []
  {
  }

  ghost predicate IsOutside(word: string, accepts: char -> bool) {
    word != "" && forall c :: Lower(c) == word[0] ==> !accepts(c)
  }

  lemma NoWordInRun(accepts: char -> bool, word: string, x: string, i: nat, k: nat)
    requires IsOutside(word, accepts) && i <= |x| && i <= k < RunEnd(accepts, x, i)
    ensures !HasWordAt(word, x, k)
  {
    assert accepts(x[k]) && x[k] == x[k + 0];
  }

  lemma {:induction false} NoneEnds(r: Regex, x: string, i: nat, starts: seq<nat>)
    requires i <= |x| && AreWithin(starts, i, |x|)
    requires forall k :: 0 <= k < |starts| ==> Ends(r, x, starts[k]) == []
    ensures EndsFromEach(r, x, i, starts) == []
  {
    if starts != [] {
      NoneEnds(r, x, i, starts[1..]);
    }
  }

  lemma EndsFromFirst(r: Regex, x: string, i: nat, starts: seq<nat>)
    requires i <= |x| && AreWithin(starts, i, |x|) && starts != []
    requires EndsFromEach(r, x, i, starts[1..]) == []
    ensures EndsFromEach(r, x, i, starts) == Ends(r, x, starts[0])
  {
  }

  lemma OnlyHighestEnds(r: Regex, x: string, i: nat, high: nat)
    requires i <= high <= |x| && AreWithin(CountDown(high, i), i, |x|)
    requires forall k :: i <= k < high ==> Ends(r, x, k) == []
    ensures EndsFromEach(r, x, i, CountDown(high, i)) == Ends(r, x, high)
  {
    var starts := CountDown(high, i);
    CountDownRest(high, i);
    NoneEnds(r, x, i, starts[1..]);
    EndsFromFirst(r, x, i, starts);
  }

  // A letter after a run that does not accept that letter: only the whole run counts.
  lemma WordAfterRun(accepts: char -> bool, word: string, x: string, i: nat)
    requires IsOutside(word, accepts) && i <= |x|
    ensures Ends(Cat(Star(accepts), Word(word)), x, i) == Ends(Word(word), x, RunEnd(accepts, x, i))
  {
    var high := RunEnd(accepts, x, i);
    CountDownIsWithin(high, i, |x|);
    forall k | i <= k < high ensures Ends(Word(word), x, k) == [] {
      NoWordInRun(accepts, word, x, i, k);
    }
    OnlyHighestEnds(Word(word), x, i, high);
  }

  // Spaces, a word that cannot be taken for a space, and something more.
  lemma SpacedWordThen(accepts: char -> bool, word: string, last: Regex, x: string, i: nat)
    requires IsOutside(word, accepts) && i <= |x|
    ensures var a := RunEnd(accepts, x, i);
            Ends(Cat(Cat(Star(accepts), Word(word)), last), x, i) ==
            if HasWordAt(word, x, a) then Ends(last, x, a + |word|) else []
  {
    WordAfterRun(accepts, word, x, i);
    CatEnds(Cat(Star(accepts), Word(word)), last, x, i);
  }

  // The first start after which the rest matches is taken.
  lemma {:induction false} FirstOfIs(rest: Regex, x: string, starts: seq<nat>) returns (k: nat)
    requires AreWithin(starts, 0, |x|)
    ensures k <= |starts| && forall j :: 0 <= j < k ==> Ends(rest, x, starts[j]) == []
    ensures k < |starts| ==> Ends(rest, x, starts[k]) != []
                             && FirstOf(rest, x, starts) == Found(starts[k], Ends(rest, x, starts[k])[0])
    ensures k == |starts| ==> FirstOf(rest, x, starts) == NotFound
  {
    if starts == [] || Ends(rest, x, starts[0]) != [] {
      k := 0;
    } else {
      k := FirstOfIs(rest, x, starts[1..]);
      k := k + 1;
    }
  }

  lemma {:induction false} CountDownAt(high: nat, low: nat)
    requires low <= high
    ensures |CountDown(high, low)| == high - low + 1
    ensures forall k :: 0 <= k <= high - low ==> CountDown(high, low)[k] == high - k
  {
    if low < high {
      CountDownAt(high - 1, low);
      CountDownRest(high, low);
    }
  }

  // With a descending list of starts that is the last start after which the rest matches.
  lemma FirstOfCountDown(rest: Regex, x: string, high: nat, low: nat)
    requires high <= |x| && AreWithin(CountDown(high, low), 0, |x|)
    ensures IsLastMatch(rest, x, low, high, FirstOf(rest, x, CountDown(high, low)))
  {
    var starts := CountDown(high, low);
    var k := FirstOfIs(rest, x, starts);
    if low <= high {
      CountDownAt(high, low);
      forall v | low <= v <= high && Ends(rest, x, v) != [] ensures k < |starts| && v <= starts[k] {
        assert starts[high - v] == v;
      }
    }
  }

  // m is the match that keeps most, among the ends from low to high after which rest matches.
  ghost predicate IsLastMatch(rest: Regex, x: string, low: nat, high: nat, m: Found)
    requires high <= |x|
  {
    && (m.Found? ==> low <= m.start <= high && Ends(rest, x, m.start) != [] && m.end == Ends(rest, x, m.start)[0])
    && (forall v :: low <= v <= high && Ends(rest, x, v) != [] ==> m.Found? && v <= m.start)
  }

  lemma FirstMatchIsLast(p: Pattern, x: string, low: nat, high: nat)
    requires high <= |x| && Ends(p.kept, x, 0) == CountDown(high, low)
    ensures IsLastMatch(p.rest, x, low, high, FirstMatch(p, x))
  {
    CountDownIsWithin(high, low, |x|);
    FirstOfCountDown(p.rest, x, high, low);
  }

  // The pattern and the finder see the same match at the head of x. The match of the
  // pattern may go on for one more character, which no match of the finder starts at.
  ghost predicate SeeTheSame(p: Pattern, replacement: string, find: Finder, text: string, x: string) {
    var m, f := FirstMatch(p, x), find(x);
    && m.Found? == f.Found?
    && (m.Found? ==>
      && f.start <= f.end <= m.end <= f.end + 1 && 0 < m.end
      && x[..m.start] + replacement == x[..f.start] + text + x[f.end..m.end]
      && (f.end < m.end ==> find(x[f.end..]).NotFound?))
  }

  lemma EqualMatchesAreSame(p: Pattern, find: Finder, text: string, x: string)
    requires IsSound(find) && FirstMatch(p, x) == find(x)
    ensures SeeTheSame(p, text, find, text, x)
  {
    if find(x).Found? {
      assert x[find(x).end..find(x).end] == "";
    }
  }

  // The match of the pattern includes the quotes around the value.
  ghost predicate AreQuoted(m: Found, f: Found, x: string) {
    && m.Found? == f.Found?
    && (f.Found? ==>
          && f.start <= f.end < |x| && 0 < f.start && m == Found(f.start - 1, f.end + 1)
          && x[m.start] == '"' && x[f.end] == '"')
  }

  lemma QuotedMatchesAreSame(p: Pattern, find: Finder, text: string, x: string)
    requires IsSound(find) && AreQuoted(FirstMatch(p, x), find(x), x)
    requires find(x).Found? ==> find(x[find(x).end..]).NotFound?
    ensures SeeTheSame(p, "\"" + text + "\"", find, text, x)
  {
    var f := find(x);
    if f.Found? {
      assert x[..f.start] == x[..f.start - 1] + "\"" && x[f.end..f.end + 1] == "\"";
    }
  }

  lemma {:induction false} ReplacementsAgree(p: Pattern, replacement: string, find: Finder, text: string, x: string)
    requires IsSound(find) && forall y :: SeeTheSame(p, replacement, find, text, y)
    ensures RegexReplace(p, replacement, x) == Replace(find, text, x)
    decreases |x|
  {
    if x != "" {
      var m := FirstMatch(p, x);
      assert SeeTheSame(p, replacement, find, text, x);
      if m.NotFound? {
        ReplacementsAgree(p, replacement, find, text, x[1..]);
      } else {
        ReplacementsAgree(p, replacement, find, text, x[m.end..]);
        SameReplacement(p, replacement, find, text, x);
      }
    }
  }

  lemma MatchIsReplaced(p: Pattern, replacement: string, x: string)
    requires FirstMatch(p, x).Found? && 0 < FirstMatch(p, x).end
    ensures var m := FirstMatch(p, x);
            RegexReplace(p, replacement, x) ==
            x[..m.start] + replacement + RegexReplace(p, replacement, x[m.end..])
  {
  }

  lemma ValueIsReplaced(find: Finder, text: string, x: string)
    requires IsSound(find) && find(x).Found?
    ensures Replace(find, text, x) == x[..find(x).start] + text + Replace(find, text, x[find(x).end..])
  {
  }

  lemma SameReplacement(p: Pattern, replacement: string, find: Finder, text: string, x: string)
    requires IsSound(find) && SeeTheSame(p, replacement, find, text, x) && FirstMatch(p, x).Found?
    requires RegexReplace(p, replacement, x[FirstMatch(p, x).end..]) == Replace(find, text, x[FirstMatch(p, x).end..])
    ensures RegexReplace(p, replacement, x) == Replace(find, text, x)
  {
    var m, f := FirstMatch(p, x), find(x);
    MatchIsReplaced(p, replacement, x);
    ValueIsReplaced(find, text, x);
    ReplaceCopies(find, text, x, f.end, m.end);
    SameParts(x[..m.start] + replacement, x[..f.start] + text, x[f.end..m.end],
              Replace(find, text, x[f.end..]), Replace(find, text, x[m.end..]));
  }

  lemma ReplaceCopies(find: Finder, text: string, x: string, i: nat, j: nat)
    requires IsSound(find) && i <= j <= i + 1 && j <= |x| && (i < j ==> find(x[i..]).NotFound?)
    ensures Replace(find, text, x[i..]) == x[i..j] + Replace(find, text, x[j..])
  {
    if i < j {
      assert x[i..][1..] == x[j..] && x[i..j] == [x[i..][0]];
    } else {
      assert x[i..j] == "";
    }
  }

  lemma SameParts(a: string, b: string, c: string, d: string, e: string)
    requires a == b + c && d == c + e
    ensures a + e == b + d
  {
  }
}
