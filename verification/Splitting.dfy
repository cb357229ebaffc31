/** Finding a separator in a text, and the pieces between separators. */
module Splitting {

  // The first c, or the end of the text.
  function IndexOf(c: char, text: string): (n: nat)
    ensures n <= |text| && c !in text[..n]
    ensures n < |text| ==> text[n] == c
  {
    if text == "" || text[0] == c then 0
    else
      var n := IndexOf(c, text[1..]);
      assert text[..1 + n] == [text[0]] + text[1..][..n];
      1 + n
  }

  lemma {:induction false} IndexOfIsUnique(c: char, text: string, n: nat)
    requires n <= |text| && c !in text[..n]
    requires n < |text| ==> text[n] == c
    ensures IndexOf(c, text) == n
  {
    var m := IndexOf(c, text);
    assert forall i :: 0 <= i < n ==> text[i] in text[..n];
    assert forall i :: 0 <= i < m ==> text[i] in text[..m];
  }

  // All pieces; a text without a separator is one piece.
  function Split(c: char, text: string): (pieces: seq<string>)
    ensures |pieces| > 0
    ensures forall i :: 0 <= i < |pieces| ==> c !in pieces[i]
    decreases |text|
  {
    var n := IndexOf(c, text);
    if n == |text| then
      assert text[..n] == text;
      [text]
    else [text[..n]] + Split(c, text[n + 1..])
  }

  lemma SplitFirst(c: char, piece: string, rest: string)
    requires c !in piece
    ensures Split(c, piece) == [piece]
    ensures Split(c, piece + [c] + rest) == [piece] + Split(c, rest)
  {
    IndexOfIsUnique(c, piece, |piece|);
    var text := piece + [c] + rest;
    assert text[..|piece|] == piece && text[|piece| + 1..] == rest;
    IndexOfIsUnique(c, text, |piece|);
  }

  // The next piece and the pieces after it, when a text is split from left to right.
  lemma PieceAt(c: char, text: string, start: nat, end: nat)
    requires start <= |text| && end == start + IndexOf(c, text[start..])
    ensures Split(c, text[start..]) == [text[start..end]] + if end == |text| then [] else Split(c, text[end + 1..])
  {
    var rest := text[start..];
    assert rest[..end - start] == text[start..end];
    assert end == |text| ==> rest == text[start..end] && Split(c, rest) == [rest] + [];
    assert end < |text| ==> rest[end - start + 1..] == text[end + 1..];
  }

  // The line that starts at start, and where the next one starts unless it is the last.
  method LineFrom(text: string, start: nat) returns (line: string, next: nat, last: bool, ghost rest: seq<string>)
    requires start <= |text|
    ensures Split('\n', text[start..]) == [line] + rest
    ensures if last then rest == [] else start < next <= |text| && rest == Split('\n', text[next..])
  {
    var end := start + IndexOf('\n', text[start..]);
    PieceAt('\n', text, start, end);
    line, last := text[start..end], end == |text|;
    next := if last then end else end + 1;
    rest := if last then [] else Split('\n', text[next..]);
  }

  lemma SplitHead(c: char, piece: string, rest: string, text: string)
    requires c !in piece && text == piece + [c] + rest
    ensures Split(c, text) == [piece] + Split(c, rest)
  {
    SplitFirst(c, piece, rest);
  }

  lemma Associate<T>(a: seq<T>, b: seq<T>, c: seq<T>)
    ensures a + (b + c) == a + b + c
  {
  }

  // The texts with a separator after each.
  function Terminated(c: char, pieces: seq<string>): string {
    if pieces == [] then "" else pieces[0] + [c] + Terminated(c, pieces[1..])
  }

  lemma {:induction false} TerminatedNext(c: char, lines: seq<string>, line: string)
    ensures Terminated(c, lines + [line]) == Terminated(c, lines) + (line + [c])
  {
    if lines == [] {
      assert [line][1..] == [];
      assert [] + [line] == [line];
    } else {
      assert (lines + [line])[1..] == lines[1..] + [line];
      TerminatedNext(c, lines[1..], line);
      assert lines[0] + [c] + (Terminated(c, lines[1..]) + (line + [c])) ==
             lines[0] + [c] + Terminated(c, lines[1..]) + (line + [c]);
    }
  }

  lemma {:induction false} SplitTerminated(c: char, pieces: seq<string>)
    requires forall i :: 0 <= i < |pieces| ==> c !in pieces[i]
    ensures Split(c, Terminated(c, pieces)) == pieces + [""]
  {
    if pieces == [] {
      SplitFirst(c, "", "");
    } else {
      SplitHead(c, pieces[0], Terminated(c, pieces[1..]), Terminated(c, pieces));
      SplitTerminated(c, pieces[1..]);
      Associate([pieces[0]], pieces[1..], [""]);
    }
  }

  // A text is told by its pieces.
  lemma {:induction false} SplitIsOnce(c: char, text: string, other: string)
    requires Split(c, text) == Split(c, other)
    ensures text == other
    decreases |text|
  {
    var n, m := IndexOf(c, text), IndexOf(c, other);
    SplitParts(c, text);
    SplitParts(c, other);
    if n < |text| {
      SplitIsOnce(c, text[n + 1..], other[m + 1..]);
    }
  }

  lemma SplitParts(c: char, text: string)
    ensures var n := IndexOf(c, text);
            && text[..n] == Split(c, text)[0]
            && if n == |text| then |Split(c, text)| == 1 && text == text[..n]
               else Split(c, text)[1..] == Split(c, text[n + 1..]) && |Split(c, text)| > 1
                    && text == text[..n] + [c] + text[n + 1..]
  {
    var n := IndexOf(c, text);
    if n < |text| {
      var first, rest := text[..n], text[n + 1..];
      assert text == first + [c] + rest;
      SplitHead(c, first, rest, text);
      assert ([first] + Split(c, rest))[1..] == Split(c, rest);
    } else {
      assert text[..n] == text;
      SplitFirst(c, text, "");
    }
  }
}
