/** Leftmost replacement of values by a fixed text, for any way of finding a value at
  * the head of a string.
  */
module Replacing {

  // The value of a match at the head of a string: the characters from start to end.
  datatype Found = NotFound | Found(start: nat, end: nat)

  type Finder = string -> Found

  // Some text is kept before every value, and the input does not end before a value.
  ghost predicate IsSound(find: Finder) {
    forall x :: find(x).Found? ==> 0 < find(x).start < |x| && find(x).start <= find(x).end <= |x|
  }

  function Replace(find: Finder, text: string, x: string): string
    requires IsSound(find)
    decreases |x|
  {
    if x == "" then ""
    else
      var r := find(x);
      if r.NotFound? then [x[0]] + Replace(find, text, x[1..])
      else x[..r.start] + text + Replace(find, text, x[r.end..])
  }

  // Length of the text before the first replaced value.
  function Lead(find: Finder, x: string): (n: nat)
    requires IsSound(find)
    ensures n <= |x|
    decreases |x|
  {
    if x == "" then 0
    else
      var r := find(x);
      if r.NotFound? then 1 + Lead(find, x[1..]) else r.start
  }

  // The output is the lead, then the text unless the lead is all there is.
  predicate IsLed(text: string, x: string, n: nat, t: string) {
    && n <= |x| && n <= |t| && t[..n] == x[..n]
    && (if n == |x| then |t| == n else n + |text| <= |t| && t[n..n + |text|] == text)
  }

  lemma LedByOneMore(text: string, c: char, x: string, n: nat, t: string)
    requires IsLed(text, x, n, t)
    ensures IsLed(text, [c] + x, n + 1, [c] + t)
  {
    assert ([c] + t)[..n + 1] == [c] + t[..n] == [c] + x[..n] == ([c] + x)[..n + 1];
    if n < |x| {
      assert ([c] + t)[n + 1..n + 1 + |text|] == t[n..n + |text|];
    }
  }

  lemma {:induction false} LeadIsCopied(find: Finder, text: string, x: string)
    requires IsSound(find)
    ensures IsLed(text, x, Lead(find, x), Replace(find, text, x))
    ensures Lead(find, x) == |x| ==> Replace(find, text, x) == x
    decreases |x|
  {
    if x != "" {
      var r := find(x);
      if r.NotFound? {
        LeadIsCopied(find, text, x[1..]);
        assert x == [x[0]] + x[1..];
        LedByOneMore(text, x[0], x[1..], Lead(find, x[1..]), Replace(find, text, x[1..]));
      } else {
        var t := x[..r.start] + text + Replace(find, text, x[r.end..]);
        assert t[r.start..r.start + |text|] == text;
        assert t[..r.start] == x[..r.start];
      }
    }
  }

  // What follows a proper lead is the value of a match that starts in the lead.
  lemma {:induction false} LeadEndsAtValue(find: Finder, x: string) returns (i: nat)
    requires IsSound(find) && Lead(find, x) < |x|
    ensures i <= Lead(find, x) && find(x[i..]).Found? && i + find(x[i..]).start == Lead(find, x)
    decreases |x|
  {
    if find(x).NotFound? {
      i := LeadEndsAtValue(find, x[1..]);
      assert x[1..][i..] == x[i + 1..];
      i := i + 1;
    } else {
      i := 0;
      assert x[0..] == x;
    }
  }

  lemma PartAt(a: string, text: string, b: string, j: nat)
    requires j < |a + text + b| && (a + text + b)[j] !in text
    ensures j < |a| ==> (a + text + b)[j] == a[j]
    ensures |a| <= j ==> |a| + |text| <= j && (a + text + b)[j] == b[j - |a| - |text|]
  {
    forall k | |a| <= k < |a| + |text| ensures (a + text + b)[k] in text {
      assert (a + text + b)[k] == text[k - |a|];
    }
  }

  // A character that is not in the text, found in the output at j, which is at or after
  // some k in the lead, was in the input at or after k.
  lemma {:induction false} OnlyTextIsAdded(find: Finder, text: string, x: string, k: nat, j: nat) returns (m: nat)
    requires IsSound(find)
    requires k <= Lead(find, x) && k <= j < |Replace(find, text, x)|
    requires Replace(find, text, x)[j] !in text
    ensures k <= m < |x| && x[m] == Replace(find, text, x)[j]
    decreases |x|
  {
    var r := find(x);
    if r.NotFound? {
      if j == 0 {
        m := 0;
      } else {
        m := OnlyTextIsAdded(find, text, x[1..], if k == 0 then 0 else k - 1, j - 1);
        m := m + 1;
      }
    } else {
      PartAt(x[..r.start], text, Replace(find, text, x[r.end..]), j);
      if j < r.start {
        m := j;
      } else {
        m := OnlyTextIsAdded(find, text, x[r.end..], 0, j - r.start - |text|);
        m := r.end + m;
      }
    }
  }

  // Wherever find succeeds, overlapping places included, the value is the text.
  predicate IsCleanHead(find: Finder, text: string, x: string)
    requires IsSound(find)
  {
    find(x).Found? ==> x[find(x).start..find(x).end] == text
  }

  predicate IsClean(find: Finder, text: string, x: string)
    requires IsSound(find)
  {
    forall k :: 0 <= k <= |x| ==> IsCleanHead(find, text, x[k..])
  }

  lemma SuffixIsClean(find: Finder, text: string, x: string, n: nat)
    requires IsSound(find) && IsClean(find, text, x) && n <= |x|
    ensures IsClean(find, text, x[n..])
  {
    forall k | 0 <= k <= |x[n..]| ensures IsCleanHead(find, text, x[n..][k..]) {
      assert x[n..][k..] == x[n + k..];
    }
  }

  lemma ThreeParts(x: string, i: nat, j: nat)
    requires i <= j <= |x|
    ensures x == x[..i] + x[i..j] + x[j..]
  {
  }

  lemma {:induction false} CleanIsFixed(find: Finder, text: string, x: string)
    requires IsSound(find) && IsClean(find, text, x)
    ensures Replace(find, text, x) == x
    decreases |x|
  {
    if x != "" {
      var r := find(x);
      assert IsCleanHead(find, text, x[0..]) && x[0..] == x;
      if r.NotFound? {
        SuffixIsClean(find, text, x, 1);
        CleanIsFixed(find, text, x[1..]);
      } else {
        SuffixIsClean(find, text, x, r.end);
        CleanIsFixed(find, text, x[r.end..]);
        ThreeParts(x, r.start, r.end);
      }
    }
  }
}
