/** Characters, words and runs in strings. A byte of the source is a character here. */
module Text {

  function Lower(c: char): char {
    if 'A' <= c <= 'Z' then (c as int + 32) as char else c
  }

  // The class \s: space, tab, newline, vertical tab, form feed, carriage return.
  predicate IsSpace(c: char) {
    c == ' ' || 9 <= c as int <= 13
  }

  // Tab, newline, vertical tab, form feed, carriage return, space.
  predicate IsSpaceCode(c: char) {
    var code := c as int;
    code == 9 || code == 10 || code == 11 || code == 12 || code == 13 || code == 32
  }

  predicate AreSpaces(text: string) {
    forall k :: 0 <= k < |text| ==> IsSpaceCode(text[k])
  }

  predicate IsBlank(c: char) {
    c == ' ' || c == '\n' || c == '\r' || c == '\t'
  }

  predicate IsBlankText(text: string) {
    forall c :: c in text ==> IsBlank(c)
  }

  // The word is at i, without regard to case.
  predicate HasWordAt(word: string, x: string, i: nat) {
    i + |word| <= |x| && forall k :: 0 <= k < |word| ==> Lower(x[i + k]) == word[k]
  }

  // The end of the run of accepted characters that starts at i.
  function RunEnd(accepts: char -> bool, x: string, i: nat): (j: nat)
    requires i <= |x|
    ensures i <= j <= |x|
    ensures forall k :: i <= k < j ==> accepts(x[k])
    ensures j < |x| ==> !accepts(x[j])
    decreases |x| - i
  {
    if i < |x| && accepts(x[i]) then RunEnd(accepts, x, i + 1) else i
  }

  lemma {:induction false} RunEndIs(accepts: char -> bool, x: string, i: nat, j: nat)
    requires i <= j <= |x| && (forall k :: i <= k < j ==> accepts(x[k])) && (j < |x| ==> !accepts(x[j]))
    ensures RunEnd(accepts, x, i) == j
    decreases j - i
  {
    if i < j {
      RunEndIs(accepts, x, i + 1, j);
    }
  }

  // In a part of the text a run ends where it does in the text, or with the part.
  lemma {:induction false} RunEndOfPart(accepts: char -> bool, x: string, i: nat, g: nat)
    requires i <= g <= |x|
    ensures RunEnd(accepts, x[..g], i) == if RunEnd(accepts, x, i) < g then RunEnd(accepts, x, i) else g
    decreases g - i
  {
    if i < g && accepts(x[i]) {
      RunEndOfPart(accepts, x, i + 1, g);
    }
  }

  lemma WordOfPart(word: string, x: string, i: nat, g: nat)
    requires g <= |x|
    ensures HasWordAt(word, x[..g], i) <==> i + |word| <= g && HasWordAt(word, x, i)
  {
    assert forall k :: 0 <= k < g ==> x[..g][k] == x[k];
  }

  lemma FirstLetter(word: string, x: string, i: nat)
    requires word != ""
    ensures HasWordAt(word, x, i) ==> i < |x| && Lower(x[i]) == word[0]
    ensures |word| == 1 && i < |x| && Lower(x[i]) == word[0] ==> HasWordAt(word, x, i)
  {
    if HasWordAt(word, x, i) {
      assert Lower(x[i + 0]) == word[0];
    }
  }

  lemma WordSplits(a: string, b: string, x: string, i: nat)
    ensures HasWordAt(a + b, x, i) <==> HasWordAt(a, x, i) && HasWordAt(b, x, i + |a|)
  {
    var w := a + b;
    if HasWordAt(w, x, i) {
      assert forall k :: 0 <= k < |a| ==> w[k] == a[k];
      forall k | 0 <= k < |b| ensures Lower(x[i + |a| + k]) == b[k] {
        assert Lower(x[i + (|a| + k)]) == w[|a| + k];
      }
    }
    if HasWordAt(a, x, i) && HasWordAt(b, x, i + |a|) {
      forall k | 0 <= k < |w| ensures Lower(x[i + k]) == w[k] {
        if |a| <= k {
          assert x[i + k] == x[i + |a| + (k - |a|)];
        }
      }
    }
  }
}
