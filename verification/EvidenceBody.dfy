/** Evidence bodies grow by bounded appends. The first append that does not fit cuts the
  * text and leaves a marker at its end.
  */
module EvidenceBody {
  import opened Splitting

  const MARKER := "truncated=true\n"

  function Concat(texts: seq<string>): string {
    if texts == [] then "" else texts[0] + Concat(texts[1..])
  }

  lemma {:induction false} ConcatAppend(texts: seq<string>, more: seq<string>)
    ensures Concat(texts + more) == Concat(texts) + Concat(more)
  {
    if texts == [] {
      assert texts + more == more;
    } else {
      ConcatAppend(texts[1..], more);
      assert (texts + more)[1..] == texts[1..] + more;
      Associate(texts[0], Concat(texts[1..]), Concat(more));
    }
  }

  lemma ConcatLast(texts: seq<string>, n: nat)
    requires n < |texts|
    ensures Concat(texts[..n + 1]) == Concat(texts[..n]) + texts[n]
  {
    ConcatAppend(texts[..n], [texts[n]]);
    assert texts[..n + 1] == texts[..n] + [texts[n]];
    assert Concat([texts[n]]) == texts[n] + Concat([]);
  }

  // A text as it looks after it was appended, in whatever pieces.
  function Bounded(cap: nat, text: string): (body: string)
    requires |MARKER| <= cap
    ensures |body| <= cap && (|text| <= cap ==> body == text)
    ensures cap < |text| ==> |body| == cap && body[..cap - 15] <= text && body[cap - 15..] == "truncated=true\n"
  {
    if |text| <= cap then text else text[..cap - |MARKER|] + MARKER
  }

  // What is cut off does not matter.
  lemma BoundedAbsorbs(cap: nat, text: string, more: string)
    requires |MARKER| <= cap < |text|
    ensures Bounded(cap, text + more) == Bounded(cap, text)
  {
    assert (text + more)[..cap - |MARKER|] == text[..cap - |MARKER|];
  }

  class Body {
    const cap: nat
    var body: string
    var truncated: bool
    ghost var appended: string // all the text that was appended

    ghost predicate Valid()
      reads this
    {
      && |MARKER| <= cap
      && body == Bounded(cap, appended)
      && (|appended| > cap ==> truncated)
    }

    constructor (cap: nat)
      requires |MARKER| <= cap
      ensures Valid() && this.cap == cap && body == "" && !truncated && appended == ""
    {
      this.cap := cap;
      body, truncated, appended := "", false, "";
    }

    method AppendBounded(text: string)
      requires Valid()
      modifies this
      ensures Valid() && appended == old(appended) + text
      ensures truncated == (old(truncated) || |appended| > cap)
    {
      BoundedPieces(cap, appended, text);
      appended := appended + text;
      if |body| + |text| <= cap {
        body := body + text;
        return;
      }
      var remaining := cap - |body|;
      if remaining > |MARKER| {
        body := body + text[..remaining - |MARKER|];
      } else if |body| + |MARKER| > cap {
        body := body[..cap - |MARKER|];
      }
      body := body + MARKER;
      truncated := true;
    }

    method AppendTruncationMarker()
      requires Valid()
      modifies this
      ensures Valid() && truncated
      ensures appended == old(appended) + if old(truncated) then "" else MARKER
    {
      if !truncated {
        AppendBounded(MARKER);
        truncated := true;
      } else {
        assert appended == appended + "";
      }
    }
  }

  // The three ways in which a text can fail to fit, and what each leaves.
  lemma BoundedPieces(cap: nat, before: string, text: string)
    requires |MARKER| <= cap
    ensures var body, remaining := Bounded(cap, before), cap - |Bounded(cap, before)|;
            Bounded(cap, before + text) ==
            if |body| + |text| <= cap then body + text
            else if remaining > |MARKER| then body + text[..remaining - |MARKER|] + MARKER
            else if |body| + |MARKER| > cap then body[..cap - |MARKER|] + MARKER
            else body + MARKER
  {
    var all := before + text;
    if |before| > cap {
      BoundedAbsorbs(cap, before, text);
      assert Bounded(cap, before)[..cap - |MARKER|] == before[..cap - |MARKER|];
      if text == "" {
        assert Bounded(cap, before) + text == Bounded(cap, before);
      }
    } else if |all| > cap && cap - |before| > |MARKER| {
      assert all[..cap - |MARKER|] == before + text[..cap - |MARKER| - |before|];
    } else if |all| > cap {
      assert all[..cap - |MARKER|] == before[..cap - |MARKER|];
    }
  }

  lemma RestIsAbsorbed(cap: nat, head: string, rows: seq<string>, n: nat, tail: string)
    requires |MARKER| <= cap && n <= |rows| && |head + Concat(rows[..n])| > cap
    ensures Bounded(cap, head + Concat(rows) + tail) == Bounded(cap, head + Concat(rows[..n]))
  {
    ConcatAppend(rows[..n], rows[n..]);
    assert rows == rows[..n] + rows[n..];
    BoundedAbsorbs(cap, head + Concat(rows[..n]), Concat(rows[n..]) + tail);
    assert head + (Concat(rows[..n]) + Concat(rows[n..])) + tail ==
           (head + Concat(rows[..n])) + (Concat(rows[n..]) + tail);
  }

  method AppendHeads(b: Body, heads: seq<string>)
    requires b.Valid() && b.appended == "" && !b.truncated
    modifies b
    ensures b.Valid() && b.appended == Concat(heads) && b.truncated == (|b.appended| > b.cap)
  {
    for i := 0 to |heads|
      invariant b.Valid() && b.appended == Concat(heads[..i]) && b.truncated == (|b.appended| > b.cap)
    {
      b.AppendBounded(heads[i]);
      ConcatLast(heads, i);
    }
    assert heads[..|heads|] == heads;
  }

  // Header lines, then rows until the body is full, then a marker if rows are missing.
  method FormatRows(cap: nat, heads: seq<string>, rows: seq<string>, hasMore: bool) returns (body: string)
    requires |MARKER| <= cap
    ensures body == Bounded(cap, Concat(heads) + Concat(rows) + if hasMore then MARKER else "")
  {
    var b := new Body(cap);
    AppendHeads(b, heads);
    ghost var head := b.appended;
    for i := 0 to |rows|
      invariant b.Valid() && b.cap == cap && b.appended == head + Concat(rows[..i]) && fresh(b)
      invariant b.truncated == (|b.appended| > cap)
    {
      b.AppendBounded(rows[i]);
      ConcatLast(rows, i);
      Associate(head, Concat(rows[..i]), rows[i]);
      if b.truncated {
        RestIsAbsorbed(cap, head, rows, i + 1, if hasMore then MARKER else "");
        return b.body;
      }
    }
    assert rows[..|rows|] == rows;
    if hasMore {
      b.AppendBounded(MARKER);
    }
    return b.body;
  }

  // The callers that go on after the body is full get the same text.
  method FormatAll(cap: nat, texts: seq<string>) returns (body: string)
    requires |MARKER| <= cap
    ensures body == Bounded(cap, Concat(texts))
  {
    var b := new Body(cap);
    for i := 0 to |texts|
      invariant b.Valid() && b.cap == cap && b.appended == Concat(texts[..i]) && fresh(b)
    {
      b.AppendBounded(texts[i]);
      ConcatLast(texts, i);
    }
    assert texts[..|texts|] == texts;
    return b.body;
  }

  // Stopping at the first cut and going on after it give the same body.
  lemma EarlyReturnAgrees(cap: nat, heads: seq<string>, rows: seq<string>, hasMore: bool)
    requires |MARKER| <= cap
    ensures Bounded(cap, Concat(heads) + Concat(rows) + if hasMore then MARKER else "") ==
            Bounded(cap, Concat(heads + rows + if hasMore then [MARKER] else []))
  {
    var marker := if hasMore then [MARKER] else [];
    ConcatAppend(heads + rows, marker);
    ConcatAppend(heads, rows);
    assert Concat([MARKER]) == MARKER + Concat([]);
  }
}
