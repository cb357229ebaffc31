/** What the redactor changes at the front of a text: the first characters stay as they are exactly when no pass finds a
  * value that starts among them and shows. What one pass has changed there no later pass changes back.
  */
module RedactionFront {
  import opened Keywords
  import opened Replacing
  import opened RedactionScan

  // The first m characters of a value show as those of REDACTED.
  predicate IsAlike(value: string, m: nat) {
    if |value| < m then value == REDACTED else m <= |REDACTED| && value[..m] == REDACTED[..m]
  }

  // A value found at k that starts among the first n characters shows there as REDACTED would.
  predicate IsCleanAt(find: Finder, x: string, n: nat, k: nat)
    requires k <= |x|
  {
    var r := find(x[k..]);
    r.Found? && r.start <= r.end <= |x[k..]| && k + r.start < n ==> IsAlike(x[k..][r.start..r.end], n - k - r.start)
  }

  ghost predicate IsCleanBefore(find: Finder, x: string, n: nat) {
    forall k: nat :: k <= |x| ==> IsCleanAt(find, x, n, k)
  }

  // ---- One value ----

  // What a pass makes of a text that does not start with a value character starts alike.
  lemma RestStartsAlike(s: Shape, x: string)
    requires IsShape(s) && (x != "" ==> !s.isValue(x[0]))
    ensures if x == "" then Run(s, x) == "" else Run(s, x) != "" && Run(s, x)[0] == x[0]
  {
    if x != "" {
      NothingStarts(s, x);
    }
  }

  lemma ValueShows(s: Shape, value: string, follows: string, rest: string, m: nat)
    requires IsShape(s) && (forall k :: 0 <= k < |value| ==> s.isValue(value[k]))
    requires follows != "" ==> !s.isValue(follows[0])
    requires if follows == "" then rest == "" else rest != "" && rest[0] == follows[0]
    requires m <= |value + follows|
    ensures (value + follows)[..m] <= REDACTED + rest <==>
            IsAlike(value, m) && (|value| < m ==> follows[..m - |value|] <= rest)
  {
    if value == REDACTED {
      RedactedShows(follows, rest, m);
    } else if |value| < m {
      OtherShows(s, value, follows, rest, m);
    } else {
      LongShows(s, value, follows, rest, m);
    }
  }

  lemma RedactedShows(follows: string, rest: string, m: nat)
    requires m <= |REDACTED + follows|
    ensures (REDACTED + follows)[..m] <= REDACTED + rest <==> (|REDACTED| < m ==> follows[..m - |REDACTED|] <= rest)
  {
    var a, b := REDACTED + follows, REDACTED + rest;
    if |REDACTED| < m {
      assert a[..m] == REDACTED + follows[..m - |REDACTED|];
      assert a[..m] <= b ==> b[|REDACTED|..] == rest && follows[..m - |REDACTED|] == a[..m][|REDACTED|..];
    } else {
      assert a[..m] == REDACTED[..m];
    }
  }

  // A value that ends early shows where it ends, or earlier.
  lemma OtherShows(s: Shape, value: string, follows: string, rest: string, m: nat)
    requires IsShape(s) && value != REDACTED && |value| < m <= |value + follows|
    requires forall k :: 0 <= k < |value| ==> s.isValue(value[k])
    requires !s.isValue(follows[0]) && rest != "" && rest[0] == follows[0]
    ensures !((value + follows)[..m] <= REDACTED + rest)
  {
    var a, b := value + follows, REDACTED + rest;
    assert |value| < 10 ==> b[|value|] == REDACTED[|value|];
    assert b[10] == rest[0] && b[..10] == REDACTED;
    assert |value| == 10 ==> a[..10] == value;
    assert a[|value|] == follows[0] && forall k :: 0 <= k < |value| ==> a[k] == value[k];
  }

  lemma LongShows(s: Shape, value: string, follows: string, rest: string, m: nat)
    requires IsShape(s) && m <= |value| && forall k :: 0 <= k < |value| ==> s.isValue(value[k])
    requires follows != "" ==> !s.isValue(follows[0])
    requires if follows == "" then rest == "" else rest != "" && rest[0] == follows[0]
    ensures (value + follows)[..m] <= REDACTED + rest <==> m <= |REDACTED| && value[..m] == REDACTED[..m]
  {
    var a, b := value + follows, REDACTED + rest;
    assert a[..m] == value[..m];
    if m <= |REDACTED| {
      assert b[..m] == REDACTED[..m];
    } else {
      assert value[..m][10] == value[10] && (rest != "" ==> b[10] == rest[0]);
    }
  }

  // ---- Any way of finding values ----

  lemma CleanInSuffix(find: Finder, x: string, n: nat, j: nat, k: nat)
    requires j <= n && j <= k <= |x|
    ensures IsCleanAt(find, x[j..], n - j, k - j) <==> IsCleanAt(find, x, n, k)
  {
    assert x[j..][k - j..] == x[k..];
  }

  // The condition for a text is that for its first places and for the rest of it.
  lemma CleanSplits(find: Finder, x: string, n: nat, j: nat)
    requires j <= n && j <= |x|
    ensures IsCleanBefore(find, x, n) <==>
            (forall k: nat :: k < j ==> IsCleanAt(find, x, n, k)) && IsCleanBefore(find, x[j..], n - j)
  {
    var z, m := x[j..], n - j;
    if IsCleanBefore(find, x, n) {
      forall k: nat | k <= |z| ensures IsCleanAt(find, z, m, k) {
        CleanInSuffix(find, x, n, j, j + k);
      }
    }
    if IsCleanBefore(find, z, m) {
      forall k: nat | j <= k <= |x| ensures IsCleanAt(find, x, n, k) {
        CleanInSuffix(find, x, n, j, k);
      }
    }
  }

  lemma NothingIsClean(find: Finder, x: string)
    ensures IsCleanBefore(find, x, 0)
  {
  }

  // Nothing that shows is found behind the head of a text up to the end of its first value, if that is alike.
  predicate IsCleanInside(find: Finder, x: string, n: nat, k: nat) {
    match find(x)
    case NotFound => true
    case Found(v, e) =>
      0 < k <= |x| && v <= e <= |x| && n <= |x| && (n <= v || (IsAlike(x[v..e], n - v) && k < e && k < n)) ==>
        IsCleanAt(find, x, n, k)
  }

  lemma CleanAfterCopying(find: Finder, x: string, n: nat)
    requires 0 < n <= |x| && find(x).NotFound?
    ensures IsCleanBefore(find, x, n) <==> IsCleanBefore(find, x[1..], n - 1)
  {
    CleanSplits(find, x, n, 1);
    assert x[0..] == x;
    assert IsCleanAt(find, x, n, 0);
  }

  lemma CleanInKept(find: Finder, x: string, n: nat, v: nat, e: nat)
    requires IsSound(find) && find(x) == Found(v, e) && n <= v && forall k :: IsCleanInside(find, x, n, k)
    ensures IsCleanBefore(find, x, n)
  {
    assert x[0..] == x;
    forall k: nat | k <= |x| ensures IsCleanAt(find, x, n, k) {
      assert IsCleanInside(find, x, n, k);
    }
  }

  lemma CleanOfValue(find: Finder, x: string, n: nat, v: nat, e: nat)
    requires IsSound(find) && find(x) == Found(v, e) && v < n <= |x| && forall k :: IsCleanInside(find, x, n, k)
    ensures IsCleanBefore(find, x, n) <==>
            IsAlike(x[v..e], n - v) && (e < n ==> IsCleanBefore(find, x[e..], n - e))
  {
    var j := if e < n then e else n;
    assert x[0..] == x;
    assert IsCleanAt(find, x, n, 0) <==> IsAlike(x[v..e], n - v);
    forall k: nat | 0 < k < j && IsAlike(x[v..e], n - v) ensures IsCleanAt(find, x, n, k) {
      assert IsCleanInside(find, x, n, k);
    }
    CleanSplits(find, x, n, j);
    NothingIsClean(find, x[n..]);
  }

  // ---- The values of a pass ----

  // Where two characters are not the first two of a kept text, nothing is found.
  lemma QuietIsClean(s: Shape, x: string, n: nat, k: nat)
    requires IsShape(s) && k + 1 < |x| && !CanStart(x[k], x[k + 1])
    ensures IsCleanAt(FinderOf(s), x, n, k)
  {
    NothingStarts(s, x[k..]);
  }

  // What starts in the last of the n characters has its value behind them.
  lemma LastIsClean(s: Shape, x: string, n: nat, k: nat)
    requires IsShape(s) && k <= |x| && n <= k + 1
    ensures IsCleanAt(FinderOf(s), x, n, k)
  {
    assert forall y :: s.prefix(y) ==> 2 <= |y|;
  }

  // Nothing is found inside a kept text and a value that shows as REDACTED.
  lemma InsideIsClean(s: Shape, x: string, v: nat, e: nat, n: nat, k: nat)
    requires IsShape(s) && v <= e <= |x| && s.prefix(x[..v]) && v < n <= |x| && IsAlike(x[v..e], n - v)
    requires 0 < k < n && k < e
    ensures IsCleanAt(FinderOf(s), x, n, k)
  {
    var y, value := x[..v], x[v..e];
    assert IsPrefixText(y);
    assert forall i :: 0 <= i < v ==> x[i] == y[i];
    assert forall i :: v <= i < e ==> x[i] == value[i - v];
    assert |value| >= n - v ==> forall i :: 0 <= i < n - v ==> value[i] == value[..n - v][i] == REDACTED[..n - v][i];
    if k + 1 < n {
      assert k + 1 < v - 0 ==> k < v - 1;
      assert !CanStart(x[k], x[k + 1]);
      QuietIsClean(s, x, n, k);
    } else {
      LastIsClean(s, x, n, k);
    }
  }

  lemma KeptIsClean(s: Shape, x: string, v: nat, n: nat, k: nat)
    requires IsShape(s) && v <= |x| && s.prefix(x[..v]) && n <= v && 0 < k <= |x|
    ensures IsCleanAt(FinderOf(s), x, n, k)
  {
    assert IsPrefixText(x[..v]);
    assert forall i :: 0 <= i < v ==> x[i] == x[..v][i];
    if k + 1 < n {
      QuietIsClean(s, x, n, k);
    } else {
      LastIsClean(s, x, n, k);
    }
  }

  lemma PassIsCleanInside(s: Shape, x: string, n: nat, k: nat)
    requires IsShape(s)
    ensures IsCleanInside(FinderOf(s), x, n, k)
  {
    match FindValue(s, x)
    case NotFound =>
    case Found(v, e) =>
      if 0 < k <= |x| && n <= v {
        KeptIsClean(s, x, v, n, k);
      } else if 0 < k < e && k < n <= |x| && v < n && IsAlike(x[v..e], n - v) {
        InsideIsClean(s, x, v, e, n, k);
      }
  }

  lemma OneMoreShows(c: char, x: string, y: string, n: nat)
    requires 0 < n <= |x| + 1
    ensures ([c] + x)[..n] <= [c] + y <==> x[..n - 1] <= y
  {
    TailShows([c], x, y, n - 1);
  }

  lemma FrontAfterCopying(s: Shape, x: string, rest: string, n: nat)
    requires IsShape(s) && x != "" && rest == x[1..] && 0 < n <= |x| && FindValue(s, x).NotFound?
    ensures x[..n] <= Run(s, x) <==> rest[..n - 1] <= Run(s, rest)
  {
    RunCopies(s, x, rest);
    assert x == [x[0]] + rest;
    OneMoreShows(x[0], rest, Run(s, rest), n);
  }

  lemma FrontInKept(s: Shape, x: string, n: nat, v: nat, e: nat)
    requires IsShape(s) && FindValue(s, x) == Found(v, e) && n <= v
    ensures x[..n] <= Run(s, x)
  {
    RunReplaces(s, x, x[..v], x[e..]);
    HeadIsFront(x, x[..v], REDACTED + Run(s, x[e..]), n);
  }

  lemma HeadIsFront(x: string, head: string, more: string, n: nat)
    requires head <= x && n <= |head|
    ensures x[..n] <= head + more
  {
    assert x[..n] == head[..n];
  }

  lemma TailShows(head: string, a: string, b: string, m: nat)
    requires m <= |a|
    ensures (head + a)[..|head| + m] <= head + b <==> a[..m] <= b
  {
    assert (head + a)[..|head| + m] == head + a[..m];
    assert head + a[..m] <= head + b ==> a[..m] == (head + a[..m])[|head|..] <= (head + b)[|head|..] == b;
  }

  // A text whose first value is replaced: what stands before, the value, what follows it, and what becomes of that.
  ghost predicate IsReplaced(s: Shape, x: string, y: string, head: string, value: string, follows: string,
                             rest: string)
  {
    && x == head + (value + follows) && y == head + (REDACTED + rest)
    && (forall k :: 0 <= k < |value| ==> s.isValue(value[k])) && (follows != "" ==> !s.isValue(follows[0]))
    && if follows == "" then rest == "" else rest != "" && rest[0] == follows[0]
  }

  lemma FrontOfParts(s: Shape, x: string, y: string, head: string, value: string, follows: string, rest: string,
                     n: nat)
    requires IsShape(s) && IsReplaced(s, x, y, head, value, follows, rest) && |head| < n <= |x|
    ensures x[..n] <= y <==>
            IsAlike(value, n - |head|)
            && (|head| + |value| < n ==> follows[..n - |head| - |value|] <= rest)
  {
    TailShows(head, value + follows, REDACTED + rest, n - |head|);
    ValueShows(s, value, follows, rest, n - |head|);
  }

  lemma PartsOf(x: string, v: nat, e: nat)
    requires v <= e <= |x|
    ensures x == x[..v] + (x[v..e] + x[e..])
    ensures forall k :: 0 <= k < e - v ==> x[v..e][k] == x[v + k]
  {
  }

  lemma FoundIsReplaced(s: Shape, x: string, v: nat, e: nat)
    requires IsShape(s) && FindValue(s, x) == Found(v, e)
    ensures IsReplaced(s, x, Run(s, x), x[..v], x[v..e], x[e..], Run(s, x[e..]))
  {
    RunReplaces(s, x, x[..v], x[e..]);
    RestStartsAlike(s, x[e..]);
    PartsOf(x, v, e);
  }

  // The result of the pass as a variable, and likewise that for the rest.
  lemma FrontOfReplaced(s: Shape, x: string, y: string, rest: string, n: nat, v: nat, e: nat)
    requires IsShape(s) && v <= e <= |x| && v < n <= |x| && IsReplaced(s, x, y, x[..v], x[v..e], x[e..], rest)
    ensures x[..n] <= y <==> IsAlike(x[v..e], n - v) && (e < n ==> x[e..][..n - e] <= rest)
  {
    FrontOfParts(s, x, y, x[..v], x[v..e], x[e..], rest, n);
  }

  lemma FrontOfFound(s: Shape, x: string, n: nat, v: nat, e: nat)
    requires IsShape(s) && FindValue(s, x) == Found(v, e) && v < n <= |x|
    ensures x[..n] <= Run(s, x) <==> IsAlike(x[v..e], n - v) && (e < n ==> x[e..][..n - e] <= Run(s, x[e..]))
  {
    FoundIsReplaced(s, x, v, e);
    FrontOfReplaced(s, x, Run(s, x), Run(s, x[e..]), n, v, e);
  }

  // ---- All values of a text ----

  // A condition that is told by the first value and by what is behind it.
  predicate IsStepwise(find: Finder, told: (string, nat) -> bool, x: string, n: nat) {
    n <= |x| ==>
      if n == 0 then told(x, n)
      else
        match find(x)
        case NotFound => told(x, n) <==> told(x[1..], n - 1)
        case Found(v, e) =>
          if n <= v || e < v || |x| < e then told(x, n)
          else told(x, n) <==> IsAlike(x[v..e], n - v) && (e < n ==> told(x[e..], n - e))
  }

  lemma {:induction false} StepwiseIsAlike(find: Finder, front: (string, nat) -> bool, clean: (string, nat) -> bool,
                                           x: string, n: nat)
    requires IsSound(find) && n <= |x|
    requires forall y, m: nat :: IsStepwise(find, front, y, m)
    requires forall y, m: nat :: IsStepwise(find, clean, y, m)
    ensures front(x, n) <==> clean(x, n)
    decreases |x|
  {
    assert IsStepwise(find, front, x, n) && IsStepwise(find, clean, x, n);
    if n > 0 {
      var r := find(x);
      if r.NotFound? {
        StepwiseIsAlike(find, front, clean, x[1..], n - 1);
      } else if r.start < n && r.end < n {
        StepwiseIsAlike(find, front, clean, x[r.end..], n - r.end);
      }
    }
  }

  ghost function CleanTold(find: Finder): (string, nat) -> bool {
    (y: string, m: nat) => IsCleanBefore(find, y, m)
  }

  ghost function FrontTold(s: Shape): (string, nat) -> bool
    requires IsShape(s)
  {
    (y: string, m: nat) => m <= |y| && y[..m] <= Run(s, y)
  }

  lemma FrontCopied(s: Shape, x: string, n: nat)
    requires IsShape(s) && 0 < n <= |x| && FindValue(s, x).NotFound?
    ensures FrontTold(s)(x, n) == FrontTold(s)(x[1..], n - 1)
  {
    FrontAfterCopying(s, x, x[1..], n);
  }

  lemma FrontStays(s: Shape, x: string, n: nat)
    requires IsShape(s) && n <= |x|
    requires n == 0 || (FindValue(s, x).Found? && n <= FindValue(s, x).start)
    ensures FrontTold(s)(x, n)
  {
    if n > 0 {
      FrontInKept(s, x, n, FindValue(s, x).start, FindValue(s, x).end);
    }
  }

  lemma FrontOfValue(s: Shape, x: string, n: nat, v: nat, e: nat)
    requires IsShape(s) && FindValue(s, x) == Found(v, e) && v < n <= |x|
    ensures FrontTold(s)(x, n) <==> IsAlike(x[v..e], n - v) && (e < n ==> FrontTold(s)(x[e..], n - e))
  {
    FrontOfFound(s, x, n, v, e);
  }

  lemma FrontFacts(s: Shape, told: (string, nat) -> bool, x: string, n: nat, r: Found)
    requires IsShape(s) && told == FrontTold(s) && r == FindValue(s, x)
    ensures n <= |x| && (n == 0 || (r.Found? && n <= r.start)) ==> told(x, n)
    ensures 0 < n <= |x| && r.NotFound? ==> told(x, n) == told(x[1..], n - 1)
    ensures r.Found? && r.start < n <= |x| ==>
              (told(x, n) <==> IsAlike(x[r.start..r.end], n - r.start) && (r.end < n ==> told(x[r.end..], n - r.end)))
  {
    if n <= |x| {
      if n == 0 || (r.Found? && n <= r.start) {
        FrontStays(s, x, n);
      } else if r.NotFound? {
        FrontCopied(s, x, n);
      } else {
        FrontOfValue(s, x, n, r.start, r.end);
      }
    }
  }

  lemma FrontIsStepwise(s: Shape, told: (string, nat) -> bool, x: string, n: nat)
    requires IsShape(s) && told == FrontTold(s)
    ensures IsStepwise(FinderOf(s), told, x, n)
  {
    FrontFacts(s, told, x, n, FindValue(s, x));
  }

  lemma CleanIsStepwise(find: Finder, told: (string, nat) -> bool, x: string, n: nat)
    requires IsSound(find) && (forall k :: IsCleanInside(find, x, n, k)) && told == CleanTold(find)
    ensures IsStepwise(find, told, x, n)
  {
    var r := find(x);
    if n == 0 {
      NothingIsClean(find, x);
    } else if n <= |x| {
      if r.NotFound? {
        CleanAfterCopying(find, x, n);
      } else if n <= r.start {
        CleanInKept(find, x, n, r.start, r.end);
      } else {
        CleanOfValue(find, x, n, r.start, r.end);
      }
    }
  }

  // The first n characters stay as they are exactly when every value that starts among them shows as REDACTED.
  lemma FrontOfRun(s: Shape, x: string, n: nat)
    requires IsShape(s) && n <= |x|
    ensures x[..n] <= Run(s, x) <==> IsCleanBefore(FinderOf(s), x, n)
  {
    forall y, m: nat ensures IsStepwise(FinderOf(s), FrontTold(s), y, m) {
      FrontIsStepwise(s, FrontTold(s), y, m);
    }
    forall y, m: nat ensures IsStepwise(FinderOf(s), CleanTold(FinderOf(s)), y, m) {
      forall k ensures IsCleanInside(FinderOf(s), y, m, k) {
        PassIsCleanInside(s, y, m, k);
      }
      CleanIsStepwise(FinderOf(s), CleanTold(FinderOf(s)), y, m);
    }
    StepwiseIsAlike(FinderOf(s), FrontTold(s), CleanTold(FinderOf(s)), x, n);
  }
}
