/** The texts that the four patterns keep before a value, recognised by scanning, and
  * the facts about them that the general proofs in RedactionScan ask for.
  */
module RedactionShapes {
  import opened Text
  import opened Keywords
  import opened RedactionScan

  // In the order in which the redactor applies them.
  datatype Pass = Quoted | Bearer | Colon | Assignment

  predicate IsValueChar(p: Pass, c: char) {
    match p
    case Quoted => c != '"'
    case Bearer => !IsBlank(c)
    case Colon => !IsBlank(c)
    case Assignment => !IsBlank(c) && c != '"'
  }

  function SpaceEnd(x: string, i: nat): (j: nat)
    requires i <= |x|
    ensures i <= j <= |x|
  {
    RunEnd(IsSpace, x, i)
  }

  // A separator after spaces: the place behind it, 0 if there is none.
  function AfterSeparator(x: string, i: nat, separator: char): (n: nat)
    requires i <= |x|
    ensures n <= |x|
  {
    var a := SpaceEnd(x, i);
    if a < |x| && x[a] == separator then a + 1 else 0
  }

  // A keyword, spaces, the separator: the place behind them, 0 if they are not there.
  function KeywordStem(x: string, separator: char): (n: nat)
    ensures n <= |x|
  {
    if KeywordLength(x) == 0 then 0 else AfterSeparator(x, KeywordLength(x), separator)
  }

  // Authorization, spaces, a colon.
  function AuthorizationStem(x: string): (n: nat)
    ensures n <= |x|
  {
    if HasWordAt("authorization", x, 0) then AfterSeparator(x, 13, ':') else 0
  }

  // Authorization, spaces, a colon, spaces, Bearer.
  function BearerStem(x: string): (n: nat)
    ensures n <= |x|
  {
    var a := AuthorizationStem(x);
    if a > 0 && HasWordAt("bearer", x, SpaceEnd(x, a)) then SpaceEnd(x, a) + 6 else 0
  }

  function Stem(p: Pass, x: string): (n: nat)
    ensures n <= |x|
  {
    match p
    case Bearer => BearerStem(x)
    case Colon => KeywordStem(x, ':')
    case _ => KeywordStem(x, '=')
  }

  // The spaces that must follow the stem.
  function SpacesNeeded(p: Pass): nat {
    if p.Bearer? then 1 else 0
  }

  // y is a stem and then spaces.
  predicate IsStemAndSpaces(p: Pass, y: string) {
    0 < Stem(p, y) && Stem(p, y) + SpacesNeeded(p) <= |y| && SpaceEnd(y, Stem(p, y)) == |y|
  }

  // y is exactly the text that a match of the pass keeps before the value.
  predicate IsPrefix(p: Pass, y: string) {
    if p.Quoted? then y != "" && y[|y| - 1] == '"' && IsStemAndSpaces(p, y[..|y| - 1])
    else IsStemAndSpaces(p, y)
  }

  // ---- The stem of a part is the stem, if it lies in the part ----

  lemma SeparatorOfPart(x: string, i: nat, separator: char, g: nat)
    requires i <= g <= |x|
    ensures AfterSeparator(x[..g], i, separator) ==
            if AfterSeparator(x, i, separator) <= g then AfterSeparator(x, i, separator) else 0
  {
    RunEndOfPart(IsSpace, x, i, g);
  }

  lemma KeywordStemOfPart(x: string, separator: char, g: nat)
    requires g <= |x|
    ensures KeywordStem(x[..g], separator) == if KeywordStem(x, separator) <= g then KeywordStem(x, separator) else 0
  {
    KeywordOfPart(x, g);
    if KeywordLength(x) <= g {
      SeparatorOfPart(x, KeywordLength(x), separator, g);
    }
  }

  lemma AuthorizationStemOfPart(x: string, g: nat)
    requires g <= |x|
    ensures AuthorizationStem(x[..g]) == if AuthorizationStem(x) <= g then AuthorizationStem(x) else 0
  {
    WordOfPart("authorization", x, 0, g);
    if 13 <= g {
      SeparatorOfPart(x, 13, ':', g);
    }
  }

  lemma BearerStemOfPart(x: string, g: nat)
    requires g <= |x|
    ensures BearerStem(x[..g]) == if BearerStem(x) <= g then BearerStem(x) else 0
  {
    AuthorizationStemOfPart(x, g);
    var a := AuthorizationStem(x);
    if 0 < a <= g {
      RunEndOfPart(IsSpace, x, a, g);
      WordOfPart("bearer", x, SpaceEnd(x[..g], a), g);
    }
  }

  lemma StemOfPart(p: Pass, x: string, g: nat)
    requires g <= |x|
    ensures Stem(p, x[..g]) == if Stem(p, x) <= g then Stem(p, x) else 0
  {
    match p
    case Bearer => BearerStemOfPart(x, g);
    case Colon => KeywordStemOfPart(x, ':', g);
    case Quoted => KeywordStemOfPart(x, '=', g);
    case Assignment => KeywordStemOfPart(x, '=', g);
  }

  // The ends of all stems-and-spaces that x starts with form one interval.
  lemma StemAndSpacesOfPart(p: Pass, x: string, g: nat)
    requires g <= |x|
    ensures var s := Stem(p, x);
            IsStemAndSpaces(p, x[..g]) <==> 0 < s && s + SpacesNeeded(p) <= g <= SpaceEnd(x, s)
  {
    StemOfPart(p, x, g);
    if Stem(p, x) <= g {
      RunEndOfPart(IsSpace, x, Stem(p, x), g);
    }
  }

  // ---- What is in a prefix ----

  lemma SeparatorIsQuiet(x: string, i: nat, separator: char, n: nat)
    requires EndsPrefix(separator) && i <= |x| && AfterSeparator(x, i, separator) == n > 0
    ensures i < n && forall k :: i <= k < n ==> EndsPrefix(x[k])
  {
  }

  lemma KeywordStemIsQuiet(x: string, separator: char)
    requires (separator == ':' || separator == '=') && 0 < KeywordStem(x, separator)
    ensures 2 <= |x| && CanStart(x[0], x[1]) && IsQuietPart(x, 0, KeywordStem(x, separator))
    ensures x[KeywordStem(x, separator) - 1] == separator
  {
    var n := KeywordStem(x, separator);
    KeywordIsQuiet(x);
    SeparatorIsQuiet(x, KeywordLength(x), separator, n);
    QuietThenEnds(x, 0, KeywordLength(x), n);
  }

  lemma AuthorizationStemIsQuiet(x: string)
    requires 0 < AuthorizationStem(x)
    ensures 2 <= |x| && CanStart(x[0], x[1]) && IsQuietPart(x, 0, AuthorizationStem(x))
    ensures EndsPrefix(x[AuthorizationStem(x) - 1])
  {
    BearerWordsAreQuiet();
    WordStarts("authorization", x);
    WordIsQuiet("authorization", x, 0);
    SeparatorIsQuiet(x, 13, ':', AuthorizationStem(x));
    QuietThenEnds(x, 0, 13, AuthorizationStem(x));
  }

  lemma BearerStemIsQuiet(x: string)
    requires 0 < BearerStem(x)
    ensures 2 <= |x| && CanStart(x[0], x[1]) && IsQuietPart(x, 0, BearerStem(x))
    ensures Lower(x[BearerStem(x) - 1]) == 'r'
  {
    var a := AuthorizationStem(x);
    var b := SpaceEnd(x, a);
    AuthorizationStemIsQuiet(x);
    QuietThenEnds(x, 0, a, b);
    BearerIsQuiet(x, b);
    QuietParts(x, 0, b, b + 6);
  }

  lemma BearerIsQuiet(x: string, b: nat)
    requires HasWordAt("bearer", x, b)
    ensures b + 6 <= |x| && IsQuietPart(x, b, b + 6) && Lower(x[b]) == 'b' && Lower(x[b + 5]) == 'r'
  {
    BearerWordsAreQuiet();
    WordIsQuiet("bearer", x, b);
    assert Lower(x[b + 0]) == 'b' && Lower(x[b + 5]) == 'r';
  }

  // Two quiet parts, the second starting with a letter that starts no match.
  lemma QuietParts(x: string, i: nat, n: nat, j: nat)
    requires i < n < j <= |x| && IsQuietPart(x, i, n) && IsQuietPart(x, n, j)
    requires EndsPrefix(x[n - 1]) && Lower(x[n]) == 'b'
    ensures IsQuietPart(x, i, j)
  {
  }

  // The character before the spaces at the end of a prefix.
  function SolidOf(p: Pass): char {
    match p
    case Quoted => '"'
    case Bearer => 'r'
    case Colon => ':'
    case Assignment => '='
  }

  lemma StemIsQuiet(p: Pass, x: string)
    requires 0 < Stem(p, x)
    ensures 2 <= |x| && CanStart(x[0], x[1]) && IsQuietPart(x, 0, Stem(p, x))
    ensures Lower(x[Stem(p, x) - 1]) == if p.Quoted? then '=' else SolidOf(p)
  {
    match p
    case Bearer => BearerStemIsQuiet(x);
    case Colon => KeywordStemIsQuiet(x, ':');
    case Quoted => KeywordStemIsQuiet(x, '=');
    case Assignment => KeywordStemIsQuiet(x, '=');
  }

  lemma StemAndSpacesAreText(p: Pass, y: string)
    requires IsStemAndSpaces(p, y)
    ensures IsPrefixText(y)
  {
    StemIsQuiet(p, y);
    QuietThenEnds(y, 0, Stem(p, y), |y|);
  }

  lemma PrefixIsText(p: Pass, y: string)
    requires IsPrefix(p, y)
    ensures IsPrefixText(y)
  {
    if p.Quoted? {
      var z := y[..|y| - 1];
      StemAndSpacesAreText(p, z);
      assert IsQuietPart(y, 0, |z|) by {
        assert forall k :: 0 <= k < |z| ==> y[k] == z[k];
      }
      QuietThenEnds(y, 0, |z|, |y|);
    } else {
      StemAndSpacesAreText(p, y);
    }
  }

  function ShapeOf(p: Pass): Shape {
    Shape(y => IsPrefix(p, y), c => IsValueChar(p, c), p.Quoted?)
  }

  lemma PassHasShape(p: Pass)
    ensures IsShape(ShapeOf(p))
  {
    forall y | ShapeOf(p).prefix(y) ensures IsPrefixText(y) {
      PrefixIsText(p, y);
    }
  }

  // ---- The last character that is not a space tells the passes apart ----

  function LastSolid(y: string): (c: char) {
    if y == "" then ' '
    else if IsSpace(y[|y| - 1]) then LastSolid(y[..|y| - 1])
    else Lower(y[|y| - 1])
  }

  lemma {:induction false} LastSolidIs(y: string, n: nat)
    requires 0 < n <= |y| && !IsSpace(y[n - 1]) && forall k :: n <= k < |y| ==> IsSpace(y[k])
    ensures LastSolid(y) == Lower(y[n - 1])
    decreases |y|
  {
    if n < |y| {
      LastSolidIs(y[..|y| - 1], n);
    }
  }

  lemma {:induction false} LastSolidOfSuffix(y: string, i: nat)
    requires i <= |y| && LastSolid(y[i..]) != ' '
    ensures LastSolid(y) == LastSolid(y[i..])
    decreases |y|
  {
    if i < |y| {
      var z := y[..|y| - 1];
      assert y[i..][|y| - 1 - i] == y[|y| - 1];
      assert y[i..][..|y| - 1 - i] == z[i..];
      if IsSpace(y[|y| - 1]) {
        LastSolidOfSuffix(z, i);
      }
    }
  }

  // The place in front of which the solid character of a prefix is.
  lemma SolidAt(p: Pass, y: string) returns (s: nat)
    requires IsPrefix(p, y)
    ensures 0 < s <= |y| && Lower(y[s - 1]) == SolidOf(p) && !IsSpace(y[s - 1])
    ensures forall k :: s <= k < |y| ==> IsSpace(y[k])
    ensures !p.Quoted? ==> s == Stem(p, y)
    ensures p.Quoted? ==> s == |y|
  {
    if p.Quoted? {
      s := |y|;
    } else {
      StemIsQuiet(p, y);
      s := Stem(p, y);
    }
  }

  // Two prefixes of a text differ by spaces only, so what ends between them ends in the
  // same solid character.
  lemma SolidBetween(r: Pass, y: string, n: nat, w: nat)
    requires n <= w <= |y| && IsPrefix(r, y) && IsPrefix(r, y[..n])
    ensures LastSolid(y[..w]) == SolidOf(r)
  {
    if r.Quoted? {
      SolidOfQuoted(y, n);
      assert y[..w] == y;
    } else {
      SolidOfStem(r, y, n, w);
    }
  }

  lemma SolidOfQuoted(y: string, n: nat)
    requires n <= |y| && IsPrefix(Quoted, y) && IsPrefix(Quoted, y[..n])
    ensures n == |y| && LastSolid(y) == '"'
  {
    assert y[..|y|] == y;
    QuotedPrefixIsOne(y, n);
    QuoteIsSolid(y);
  }

  lemma QuoteIsSolid(y: string)
    requires IsPrefix(Quoted, y)
    ensures LastSolid(y) == '"'
  {
  }

  lemma SolidOfStem(r: Pass, y: string, n: nat, w: nat)
    requires !r.Quoted? && n <= w <= |y| && IsPrefix(r, y) && IsPrefix(r, y[..n])
    ensures LastSolid(y[..w]) == SolidOf(r)
  {
    StemOfPart(r, y, n);
    var s := SolidAt(r, y);
    LastSolidIs(y[..w], s);
  }

  lemma OnlySpacesDiffer(p: Pass, z: string, part: string)
    requires part <= z && IsStemAndSpaces(p, z) && IsStemAndSpaces(p, part)
    ensures forall k :: |part| <= k < |z| ==> IsSpace(z[k])
  {
    assert part == z[..|part|];
    StemOfPart(p, z, |part|);
  }

  lemma QuotedPrefixIsOne(y: string, n: nat)
    requires 0 < n <= |y| && IsPrefix(Quoted, y[..|y|]) && IsPrefix(Quoted, y[..n])
    ensures n == |y|
  {
    var z, part := y[..|y| - 1], y[..n - 1];
    QuotedParts(y, z, |y|);
    QuotedParts(y, part, n);
    assert n < |y| ==> z[n - 1] == '"';
    OnlySpacesDiffer(Quoted, z, part);
  }

  lemma QuotedParts(y: string, z: string, n: nat)
    requires 0 < n <= |y| && IsPrefix(Quoted, y[..n]) && z == y[..n - 1]
    ensures IsStemAndSpaces(Quoted, z) && y[n - 1] == '"'
  {
    assert y[..n][..n - 1] == z;
  }

  lemma PrefixesDiffer(r: Pass, p: Pass, y: string, n: nat, w: nat, i: nat)
    requires r != p && i <= w && n <= w <= |y|
    requires IsPrefix(r, y) && IsPrefix(r, y[..n])
    ensures !IsPrefix(p, y[i..w])
  {
    SolidBetween(r, y, n, w);
    var z := y[i..w];
    if IsPrefix(p, z) {
      var s := SolidAt(p, z);
      LastSolidIs(z, s);
      assert y[..w][i..] == z;
      LastSolidOfSuffix(y[..w], i);
    }
  }

  lemma PassesAreSeparate(r: Pass, p: Pass)
    requires r != p
    ensures AreSeparate(ShapeOf(r), ShapeOf(p))
  {
    var sr, sp := ShapeOf(r), ShapeOf(p);
    forall y, n, w, i | 0 <= i <= w && 0 <= n <= w <= |y| && sr.prefix(y) && sr.prefix(y[..n])
      ensures !sp.prefix(y[i..w])
    {
      PrefixesDiffer(r, p, y, n, w, i);
    }
  }
}
