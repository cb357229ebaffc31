/** One redaction pass, for any shape of pattern: some text is kept, the value after it
  * is replaced. The proofs need only a few facts about the kept text, gathered in IsShape.
  */
module RedactionScan {
  import opened Text
  import opened Keywords
  import opened Replacing
  import opened Splitting

  const REDACTED := "[REDACTED]"

  // prefix holds of the texts that a match keeps before its value. A quoted value runs
  // to a closing quote, any other value is a non-empty run of value characters.
  datatype Shape = Shape(prefix: string -> bool, isValue: char -> bool, quoted: bool)

  predicate ValueFollows(s: Shape, x: string, v: nat)
    requires v <= |x|
  {
    if s.quoted then '"' in x[v..] else v < |x| && s.isValue(x[v])
  }

  // A match of s starts at the head of x and its value starts at v.
  predicate IsCandidate(s: Shape, x: string, v: nat) {
    v <= |x| && s.prefix(x[..v]) && ValueFollows(s, x, v)
  }

  function ValueEnd(s: Shape, x: string, v: nat): (e: nat)
    requires v <= |x|
    ensures v <= e <= |x|
    ensures forall k :: v <= k < e ==> s.isValue(x[k])
    ensures e < |x| ==> !s.isValue(x[e])
    decreases |x| - v
  {
    if v < |x| && s.isValue(x[v]) then ValueEnd(s, x, v + 1) else v
  }

  function LastCandidate(s: Shape, x: string, limit: nat): (r: Found)
    requires limit <= |x|
    ensures r.Found? ==> r.start <= limit && IsCandidate(s, x, r.start) && r.end == ValueEnd(s, x, r.start)
    ensures r.Found? ==> forall v :: r.start < v <= limit ==> !IsCandidate(s, x, v)
    ensures r.NotFound? ==> forall v :: 0 <= v <= limit ==> !IsCandidate(s, x, v)
  {
    if IsCandidate(s, x, limit) then Found(limit, ValueEnd(s, x, limit))
    else if limit == 0 then NotFound
    else LastCandidate(s, x, limit - 1)
  }

  // The value of the match of s at the head of x. Among several possible starts
  // (a run of spaces that is given back one by one) the last one is taken.
  function FindValue(s: Shape, x: string): (r: Found)
    ensures r.Found? ==> IsCandidate(s, x, r.start) && r.end == ValueEnd(s, x, r.start)
    ensures forall v: nat :: IsCandidate(s, x, v) ==> r.Found? && v <= r.start
  {
    var r := LastCandidate(s, x, |x|);
    assert forall v: nat :: IsCandidate(s, x, v) ==> v <= |x|;
    r
  }

  // ---- What the proofs need to know about a shape ----

  predicate IsPrefixText(y: string) {
    2 <= |y| && IsQuietPart(y, 0, |y|) && CanStart(y[0], y[1]) && EndsPrefix(y[|y| - 1])
  }

  ghost predicate IsShape(s: Shape) {
    && (forall y :: s.prefix(y) ==> IsPrefixText(y))
    && (forall c :: c in REDACTED ==> s.isValue(c))
    && (forall c :: !s.isValue(c) ==> IsBlank(c) || c == '"')
    && (s.quoted ==> forall c :: s.isValue(c) <==> c != '"')
  }

  function FinderOf(s: Shape): (find: Finder)
    requires IsShape(s)
    ensures IsSound(find)
    ensures forall x :: find(x) == FindValue(s, x)
  {
    x => FindValue(s, x)
  }

  // One pass: leftmost matches, each value replaced, everything else copied.
  function Run(s: Shape, x: string): string
    requires IsShape(s)
  {
    Replace(FinderOf(s), REDACTED, x)
  }

  predicate IsCleanOf(s: Shape, x: string)
    requires IsShape(s)
  {
    IsClean(FinderOf(s), REDACTED, x)
  }

  // ---- One step of a pass ----

  lemma RunCopies(s: Shape, x: string, rest: string)
    requires IsShape(s) && x != "" && FindValue(s, x).NotFound? && rest == x[1..]
    ensures Run(s, x) == [x[0]] + Run(s, rest)
  {
  }

  lemma RunReplaces(s: Shape, x: string, kept: string, rest: string)
    requires IsShape(s) && |kept| + |rest| <= |x|
    requires FindValue(s, x) == Found(|kept|, |x| - |rest|)
    requires kept == x[..|kept|] && rest == x[|x| - |rest|..]
    ensures Run(s, x) == kept + (REDACTED + Run(s, rest))
  {
    ReplaceFound(FinderOf(s), REDACTED, x, kept, rest);
  }

  lemma ReplaceFound(find: Finder, text: string, x: string, kept: string, rest: string)
    requires IsSound(find) && |kept| + |rest| <= |x| && find(x) == Found(|kept|, |x| - |rest|)
    requires kept == x[..|kept|] && rest == x[|x| - |rest|..]
    ensures Replace(find, text, x) == kept + (text + Replace(find, text, rest))
  {
    Associate(kept, text, Replace(find, text, rest));
  }

  // ---- Matches start and end where they should ----

  lemma {:induction false} ValueEndIs(s: Shape, x: string, v: nat, e: nat)
    requires v <= e <= |x|
    requires forall k :: v <= k < e ==> s.isValue(x[k])
    requires e < |x| ==> !s.isValue(x[e])
    ensures ValueEnd(s, x, v) == e
    decreases e - v
  {
    if v < e {
      ValueEndIs(s, x, v + 1, e);
    }
  }

  lemma NothingStarts(s: Shape, z: string)
    requires IsShape(s)
    requires |z| < 2 || !CanStart(z[0], z[1])
    ensures FindValue(s, z).NotFound?
  {
    assert forall v :: 0 <= v <= |z| && s.prefix(z[..v]) ==> IsPrefixText(z[..v]);
    assert forall v :: 2 <= v <= |z| ==> z[..v][0] == z[0] && z[..v][1] == z[1];
  }

  lemma NoBracket(s: Shape, x: string, v: nat)
    requires IsShape(s) && v <= |x| && s.prefix(x[..v])
    ensures forall k :: 0 <= k < v ==> !IsBracket(x[k])
  {
    assert IsPrefixText(x[..v]);
    assert forall k :: 0 <= k < v ==> x[..v][k] == x[k];
  }

  // A prefix found in the output lies inside the lead.
  lemma PrefixIsInLead(r: Shape, x: string, n: nat, t: string, v: nat)
    requires IsShape(r) && IsLed(REDACTED, x, n, t)
    requires v <= |t| && r.prefix(t[..v])
    ensures v <= n && r.prefix(x[..v])
  {
    if n < |t| {
      assert t[n] == t[n..n + 10][0] == '[';
    }
    NoBracket(r, t, v);
    assert t[..v] == t[..n][..v] == x[..v];
  }

  // ---- A pass leaves none of its own matches with another value ----

  lemma NoNewMatch(s: Shape, x: string)
    requires IsShape(s)
    requires FindValue(s, x).NotFound?
    ensures FindValue(s, Run(s, x)).NotFound?
  {
    var find := FinderOf(s);
    var t, n := Run(s, x), Lead(find, x);
    LeadIsCopied(find, REDACTED, x);
    var r := FindValue(s, t);
    if r.Found? {
      PrefixIsInLead(s, x, n, t, r.start);
      ValueFollowsInInput(s, x, r.start);
      assert IsCandidate(s, x, r.start);
    }
  }

  lemma ValueFollowsInInput(s: Shape, x: string, v: nat)
    requires IsShape(s)
    requires v <= Lead(FinderOf(s), x) && v <= |Run(s, x)| && ValueFollows(s, Run(s, x), v)
    ensures ValueFollows(s, x, v)
  {
    var find, n := FinderOf(s), Lead(FinderOf(s), x);
    LeadIsCopied(find, REDACTED, x);
    if v < n {
      FollowsInLead(s, find, x, n, Run(s, x), v);
    } else if n < |x| {
      var i := LeadEndsAtValue(find, x);
      assert x[i..][n - i..] == x[n..];
    }
  }

  lemma FollowsInLead(s: Shape, find: Finder, x: string, n: nat, t: string, v: nat)
    requires IsSound(find) && n == Lead(find, x) && t == Replace(find, REDACTED, x)
    requires IsLed(REDACTED, x, n, t) && v < n && v <= |t| && ValueFollows(s, t, v)
    ensures ValueFollows(s, x, v)
  {
    if s.quoted {
      QuoteWasThere(find, x, v);
    } else {
      assert t[v] == t[..n][v] == x[..n][v];
    }
  }

  // A quote found in the output at or after v was in the input at or after v.
  lemma QuoteWasThere(find: Finder, x: string, v: nat)
    requires IsSound(find)
    requires v <= Lead(find, x) && v <= |Replace(find, REDACTED, x)|
    requires '"' in Replace(find, REDACTED, x)[v..]
    ensures '"' in x[v..]
  {
    var t := Replace(find, REDACTED, x);
    var j :| v <= j < |t| && t[j] == '"';
    var m := OnlyTextIsAdded(find, REDACTED, x, v, j);
    assert x[v..][m - v] == '"';
  }

  lemma {:induction false} QuotedValueIsClosed(s: Shape, x: string, v: nat)
    requires IsShape(s) && s.quoted
    requires v <= |x| && '"' in x[v..]
    ensures ValueEnd(s, x, v) < |x|
    decreases |x| - v
  {
    if x[v] != '"' {
      assert x[v..] == [x[v]] + x[v + 1..];
      QuotedValueIsClosed(s, x, v + 1);
    }
  }

  lemma OwnMatchIsClean(s: Shape, x: string)
    requires IsShape(s)
    requires FindValue(s, x).Found?
    ensures IsCleanHead(FinderOf(s), REDACTED, Run(s, x))
  {
    var r, t := FindValue(s, x), Run(s, x);
    var y, rest := x[..r.start], Run(s, x[r.end..]);
    assert t == y + REDACTED + rest;
    if r.end < |x| {
      NothingStarts(s, x[r.end..]);
      assert rest[0] == x[r.end];
    } else {
      assert rest == "";
    }
    if s.quoted {
      QuotedValueIsClosed(s, x, r.start);
    }
    MarkedValueIsFound(s, y, rest);
  }

  lemma MarkedValueIsFound(s: Shape, y: string, rest: string)
    requires IsShape(s) && s.prefix(y)
    requires rest != "" ==> !s.isValue(rest[0])
    requires s.quoted ==> rest != ""
    ensures IsCleanHead(FinderOf(s), REDACTED, y + REDACTED + rest)
  {
    var t, n := y + REDACTED + rest, |y|;
    assert t[..n] == y;
    assert t[n..n + 10] == REDACTED;
    assert forall k :: n <= k < n + 10 ==> t[k] == REDACTED[k - n];
    ValueEndIs(s, t, n, n + 10);
    if s.quoted {
      assert t[n..][10] == '"';
    }
    assert IsCandidate(s, t, n);
    NoBracket(s, t, FindValue(s, t).start);
  }

  // ---- A later pass keeps the matches of an earlier one as they are ----

  // No p-prefix ends between the ends of two r-prefixes of the same text, nor with one.
  ghost predicate AreSeparate(r: Shape, p: Shape) {
    forall y, n, w, i ::
      0 <= i <= w && 0 <= n <= w <= |y| && r.prefix(y) && r.prefix(y[..n]) ==> !p.prefix(y[i..w])
  }

  // What the output t of a pass p over x looks like when something was replaced: the
  // first n characters are copied, the last of them from i on are a p-prefix.
  ghost predicate IsOutput(p: Shape, x: string, t: string, n: nat, i: nat) {
    && IsLed(REDACTED, x, n, t) && i < n < |x|
    && p.prefix(x[i..n]) && EndsPrefix(x[n - 1])
    && forall v :: 0 <= v <= n && '"' in t[v..] ==> '"' in x[v..]
  }

  lemma LeadEndsAtPrefix(p: Shape, x: string) returns (i: nat)
    requires IsShape(p) && Lead(FinderOf(p), x) < |x|
    ensures i < Lead(FinderOf(p), x) && p.prefix(x[i..Lead(FinderOf(p), x)])
    ensures EndsPrefix(x[Lead(FinderOf(p), x) - 1])
  {
    i := LeadEndsAtValue(FinderOf(p), x);
    var n := Lead(FinderOf(p), x);
    PartOfPart(x, i, n);
    PrefixEnds(p, x[i..n]);
  }

  lemma PartOfPart(x: string, i: nat, n: nat)
    requires i <= n <= |x|
    ensures x[i..][..n - i] == x[i..n]
    ensures i < n ==> x[i..n][n - i - 1] == x[n - 1]
  {
  }

  lemma PrefixEnds(s: Shape, y: string)
    requires IsShape(s) && s.prefix(y)
    ensures y != "" && EndsPrefix(y[|y| - 1])
  {
    assert IsPrefixText(y);
  }

  lemma QuotesWereThere(find: Finder, x: string)
    requires IsSound(find)
    ensures IsLed(REDACTED, x, Lead(find, x), Replace(find, REDACTED, x))
    ensures forall v :: 0 <= v <= Lead(find, x) && '"' in Replace(find, REDACTED, x)[v..] ==> '"' in x[v..]
  {
    LeadIsCopied(find, REDACTED, x);
    forall v | 0 <= v <= Lead(find, x) && '"' in Replace(find, REDACTED, x)[v..] ensures '"' in x[v..] {
      QuoteWasThere(find, x, v);
    }
  }

  lemma RunIsOutput(p: Shape, x: string) returns (i: nat)
    requires IsShape(p) && Lead(FinderOf(p), x) < |x|
    ensures IsOutput(p, x, Run(p, x), Lead(FinderOf(p), x), i)
  {
    QuotesWereThere(FinderOf(p), x);
    i := LeadEndsAtPrefix(p, x);
  }

  lemma LeadAvoids(r: Shape, p: Shape, x: string, v: nat, u: nat, n: nat, i: nat)
    requires AreSeparate(r, p)
    requires v <= u <= |x| && r.prefix(x[..v]) && r.prefix(x[..u])
    requires i < n < |x| && p.prefix(x[i..n])
    ensures !(v <= n <= u)
  {
    assert x[..u][..v] == x[..v];
    assert n <= u ==> x[..u][i..n] == x[i..n];
  }

  // The last character of the lead belongs to a prefix, so a REDACTED is not cut.
  lemma LeadDoesNotCut(x: string, v: nat, n: nat)
    requires v < n < |x| && EndsPrefix(x[n - 1])
    requires v + 10 <= |x| && x[v..v + 10] == REDACTED
    ensures v + 10 < n
  {
    forall k | v <= k < v + 10 ensures !EndsPrefix(x[k]) {
      assert x[k] == x[v..v + 10][k - v] == REDACTED[k - v];
    }
  }

  lemma MatchWasThere(r: Shape, p: Shape, x: string, t: string, n: nat, i: nat)
    requires IsShape(r) && AreSeparate(r, p) && IsOutput(p, x, t, n, i)
    requires FindValue(r, t).Found?
    ensures FindValue(r, t).start < n && IsCandidate(r, x, FindValue(r, t).start)
  {
    var v := FindValue(r, t).start;
    PrefixIsInLead(r, x, n, t, v);
    LeadAvoids(r, p, x, v, v, n, i);
    if !r.quoted {
      assert t[v] == t[..n][v] == x[..n][v];
    }
  }

  lemma CleanMatchIsCopied(r: Shape, p: Shape, x: string, t: string, n: nat, i: nat)
    requires IsShape(r) && AreSeparate(r, p) && IsOutput(p, x, t, n, i)
    requires IsCleanHead(FinderOf(r), REDACTED, x) && FindValue(r, t).Found?
    ensures FindValue(r, x).Found? && FindValue(r, t).start <= FindValue(r, x).start
    ensures FindValue(r, x).start + 10 < n && FindValue(r, x).end == FindValue(r, x).start + 10
  {
    MatchWasThere(r, p, x, t, n, i);
    var f := FindValue(r, x);
    LeadAvoids(r, p, x, FindValue(r, t).start, f.start, n, i);
    assert |x[f.start..f.end]| == |REDACTED|;
    LeadDoesNotCut(x, f.start, n);
  }

  lemma CleanMatchIsKept(r: Shape, p: Shape, x: string, t: string, n: nat, i: nat)
    requires IsShape(r) && AreSeparate(r, p) && IsOutput(p, x, t, n, i)
    requires IsCleanHead(FinderOf(r), REDACTED, x)
    ensures IsCleanHead(FinderOf(r), REDACTED, t)
  {
    if FindValue(r, t).Found? {
      CleanMatchIsCopied(r, p, x, t, n, i);
      KeptMatch(r, x, n, t, FindValue(r, x).start);
    }
  }

  lemma CleanHeadIsKept(r: Shape, p: Shape, x: string)
    requires IsShape(r) && IsShape(p) && AreSeparate(r, p)
    requires IsCleanHead(FinderOf(r), REDACTED, x)
    ensures IsCleanHead(FinderOf(r), REDACTED, Run(p, x))
  {
    if Lead(FinderOf(p), x) < |x| {
      var i := RunIsOutput(p, x);
      CleanMatchIsKept(r, p, x, Run(p, x), Lead(FinderOf(p), x), i);
    } else {
      LeadIsCopied(FinderOf(p), REDACTED, x);
    }
  }

  lemma CommonStart(x: string, n: nat, t: string, u: nat)
    requires n <= |x| && n <= |t| && t[..n] == x[..n] && u + 10 < n
    ensures forall k :: 0 <= k < n ==> t[k] == x[k]
    ensures t[u..u + 10] == x[u..u + 10] && t[..u] == x[..u]
  {
    assert forall k :: 0 <= k < n ==> t[k] == t[..n][k] == x[k];
  }

  // A REDACTED value that lies inside the common start of x and t is a value in t.
  lemma KeptCandidate(r: Shape, x: string, n: nat, t: string, u: nat)
    requires IsShape(r)
    requires n <= |x| && n <= |t| && t[..n] == x[..n]
    requires u + 10 < n && IsCandidate(r, x, u) && x[u..u + 10] == REDACTED
    requires ValueEnd(r, x, u) == u + 10
    ensures IsCandidate(r, t, u) && ValueEnd(r, t, u) == u + 10 && t[u..u + 10] == REDACTED
  {
    CommonStart(x, n, t, u);
    ValueEndIs(r, t, u, u + 10);
    if r.quoted {
      assert t[u..][10] == '"';
    } else {
      assert t[u] == t[u..u + 10][0] == REDACTED[0];
    }
  }

  // It is the value that is found there.
  lemma KeptMatch(r: Shape, x: string, n: nat, t: string, u: nat)
    requires IsShape(r)
    requires n <= |x| && n <= |t| && t[..n] == x[..n]
    requires u + 10 < n && IsCandidate(r, x, u) && x[u..u + 10] == REDACTED
    requires ValueEnd(r, x, u) == u + 10
    requires FindValue(r, t).Found? && FindValue(r, t).start <= u
    ensures IsCleanHead(FinderOf(r), REDACTED, t)
  {
    KeptCandidate(r, x, n, t, u);
  }

  // ---- A whole pass ----

  lemma CleanAfterCopying(r: Shape, c: char, t: string)
    requires IsShape(r) && IsCleanOf(r, t) && IsCleanHead(FinderOf(r), REDACTED, [c] + t)
    ensures IsCleanOf(r, [c] + t)
  {
    var x := [c] + t;
    forall k | 0 <= k <= |x| ensures IsCleanHead(FinderOf(r), REDACTED, x[k..]) {
      assert k == 0 ==> x[k..] == x;
      assert k > 0 ==> x[k..] == t[k - 1..];
    }
  }

  lemma CleanAfterReplacing(r: Shape, y: string, rest: string)
    requires IsShape(r) && IsPrefixText(y) && IsCleanOf(r, rest)
    requires IsCleanHead(FinderOf(r), REDACTED, y + REDACTED + rest)
    ensures IsCleanOf(r, y + REDACTED + rest)
  {
    var head := y + REDACTED;
    var x := head + rest;
    assert forall k :: |y| <= k < |head| ==> head[k] == REDACTED[k - |y|];
    forall k | 0 <= k <= |x| ensures IsCleanHead(FinderOf(r), REDACTED, x[k..]) {
      if k == 0 {
        assert x[k..] == x;
      } else if k < |head| {
        QuietInside(y, rest, k);
        NothingStarts(r, x[k..]);
      } else {
        assert x[k..] == rest[k - |head|..];
      }
    }
  }

  lemma QuietInside(y: string, rest: string, k: nat)
    requires IsPrefixText(y) && 0 < k < |y| + 10
    ensures var z := (y + REDACTED + rest)[k..]; |z| < 2 || !CanStart(z[0], z[1])
  {
    var x := y + REDACTED + rest;
    assert x[k..][0] == x[k];
    if k + 1 < |x| {
      assert x[k..][1] == x[k + 1];
      if k < |y| - 1 {
        assert !CanStart(y[k], y[k + 1]);
      } else if k == |y| - 1 {
        assert x[k + 1] == REDACTED[0];
      } else {
        assert x[k] == REDACTED[k - |y|];
        assert k + 1 < |y| + 10 ==> x[k + 1] == REDACTED[k + 1 - |y|];
      }
    }
  }

  lemma HeadIsClean(r: Shape, p: Shape, x: string)
    requires IsShape(r) && IsShape(p)
    requires r == p || (AreSeparate(r, p) && IsCleanHead(FinderOf(r), REDACTED, x))
    ensures IsCleanHead(FinderOf(r), REDACTED, Run(p, x))
  {
    if r != p {
      CleanHeadIsKept(r, p, x);
    } else if FindValue(p, x).Found? {
      OwnMatchIsClean(p, x);
    } else {
      NoNewMatch(p, x);
    }
  }

  // After the pass p its own matches are clean, and those of r still are.
  lemma {:induction false} PassIsClean(r: Shape, p: Shape, x: string)
    requires IsShape(r) && IsShape(p)
    requires r == p || (AreSeparate(r, p) && IsCleanOf(r, x))
    ensures IsCleanOf(r, Run(p, x))
    decreases |x|
  {
    assert r != p ==> IsCleanHead(FinderOf(r), REDACTED, x[0..]) && x[0..] == x;
    HeadIsClean(r, p, x);
    if x == "" {
      NothingStarts(r, "");
    } else {
      var f := FindValue(p, x);
      var n := if f.NotFound? then 1 else f.end;
      if r != p {
        SuffixIsClean(FinderOf(r), REDACTED, x, n);
      }
      PassIsClean(r, p, x[n..]);
      CleanStep(r, p, x, n);
    }
  }

  lemma CleanStep(r: Shape, p: Shape, x: string, n: nat)
    requires IsShape(r) && IsShape(p) && x != ""
    requires n <= |x| && n == (if FindValue(p, x).NotFound? then 1 else FindValue(p, x).end)
    requires IsCleanHead(FinderOf(r), REDACTED, Run(p, x)) && IsCleanOf(r, Run(p, x[n..]))
    ensures IsCleanOf(r, Run(p, x))
  {
    var f := FindValue(p, x);
    if f.NotFound? {
      CleanAfterCopying(r, x[0], Run(p, x[1..]));
    } else {
      assert IsPrefixText(x[..f.start]);
      CleanAfterReplacing(r, x[..f.start], Run(p, x[f.end..]));
    }
  }
}
