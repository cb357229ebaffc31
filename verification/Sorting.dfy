/** Orders on strings and rows, and what std::ranges::sort promises: a sorted permutation, nothing about ties. */
module Sorting {

  // The order of std::string, byte by byte.
  predicate Less(a: string, b: string) {
    b != "" && (a == "" || a[0] < b[0] || (a[0] == b[0] && Less(a[1..], b[1..])))
  }

  lemma {:induction false} LessIsTotal(a: string, b: string)
    ensures !(Less(a, b) && Less(b, a))
    ensures !Less(a, b) && !Less(b, a) ==> a == b
  {
    if a != "" && b != "" && a[0] == b[0] {
      LessIsTotal(a[1..], b[1..]);
      assert a == [a[0]] + a[1..] && b == [b[0]] + b[1..];
    }
  }

  lemma {:induction false} NotLessIsTransitive(a: string, b: string, c: string)
    requires !Less(b, a) && !Less(c, b)
    ensures !Less(c, a)
  {
    if a != "" && b != "" && c != "" && a[0] == b[0] == c[0] {
      NotLessIsTransitive(a[1..], b[1..], c[1..]);
    }
  }

  type Before<!T> = (T, T) -> bool

  // A strict weak order, as a sort asks for.
  ghost predicate IsOrder<T(!new)>(before: Before<T>) {
    && (forall a, b :: before(a, b) ==> !before(b, a))
    && (forall a, b, c :: !before(b, a) && !before(c, b) ==> !before(c, a))
  }

  predicate IsSorted<T>(before: Before<T>, rows: seq<T>) {
    forall i, j :: 0 <= i < j < |rows| ==> !before(rows[j], rows[i])
  }

  // Puts a row behind all rows that it is not before.
  method Insert<T(!new)>(before: Before<T>, rows: seq<T>, row: T) returns (longer: seq<T>)
    requires IsOrder(before) && IsSorted(before, rows)
    ensures IsSorted(before, longer) && multiset(longer) == multiset(rows) + multiset{row}
  {
    var at := |rows|;
    while at > 0 && before(row, rows[at - 1])
      invariant 0 <= at <= |rows|
      invariant forall k :: at <= k < |rows| ==> before(row, rows[k])
    {
      at := at - 1;
    }
    longer := rows[..at] + [row] + rows[at..];
    assert rows == rows[..at] + rows[at..];
    InsertedIsSorted(before, rows, row, at);
  }

  lemma InsertedIsSorted<T(!new)>(before: Before<T>, rows: seq<T>, row: T, at: nat)
    requires IsOrder(before) && IsSorted(before, rows) && at <= |rows|
    requires forall k :: at <= k < |rows| ==> before(row, rows[k])
    requires at > 0 ==> !before(row, rows[at - 1])
    ensures IsSorted(before, rows[..at] + [row] + rows[at..])
  {
    forall k | 0 <= k < at ensures !before(row, rows[k]) {
      if k < at - 1 {
        assert !before(rows[at - 1], rows[k]);
      }
    }
    var longer := rows[..at] + [row] + rows[at..];
    forall i, j | 0 <= i < j < |longer| ensures !before(longer[j], longer[i]) {
      if i != at && j != at {
        assert !before(rows[if j < at then j else j - 1], rows[if i < at then i else i - 1]);
      }
    }
  }

  method Sort<T(!new)>(before: Before<T>, rows: seq<T>) returns (sorted: seq<T>)
    requires IsOrder(before)
    ensures IsSorted(before, sorted) && multiset(sorted) == multiset(rows)
  {
    sorted := [];
    for i := 0 to |rows|
      invariant IsSorted(before, sorted) && multiset(sorted) == multiset(rows[..i])
    {
      sorted := Insert(before, sorted, rows[i]);
      assert rows[..i + 1] == rows[..i] + [rows[i]];
    }
    assert rows[..|rows|] == rows;
  }

  // Cutting a sorted sequence keeps the foremost rows.
  lemma Foremost<T>(before: Before<T>, sorted: seq<T>, n: nat)
    requires IsSorted(before, sorted) && n <= |sorted|
    ensures IsSorted(before, sorted[..n]) && multiset(sorted) == multiset(sorted[..n]) + multiset(sorted[n..])
    ensures forall a, b :: a in sorted[..n] && b in sorted[n..] ==> !before(b, a)
  {
    assert sorted == sorted[..n] + sorted[n..];
  }

  // Taking one element out of a sequence and out of a permutation of it.
  lemma TakeOut<T>(a: seq<T>, b: seq<T>) returns (j: nat)
    requires a != [] && multiset(a) == multiset(b)
    ensures j < |b| && b[j] == a[|a| - 1]
    ensures b == b[..j] + [b[j]] + b[j + 1..]
    ensures multiset(a[..|a| - 1]) == multiset(b[..j] + b[j + 1..])
  {
    var last := a[|a| - 1];
    assert last in multiset(b);
    j :| 0 <= j < |b| && b[j] == last;
    assert a == a[..|a| - 1] + [last];
    assert b == b[..j] + [last] + b[j + 1..];
    assert multiset(a[..|a| - 1]) == multiset(a) - multiset{last};
    assert multiset(b) == multiset(b[..j]) + multiset{last} + multiset(b[j + 1..]);
    assert multiset(b[..j] + b[j + 1..]) == multiset(b) - multiset{last};
  }

  // At the first place where the two differ, a has the smaller byte or has already ended.
  ghost predicate IsBefore(a: string, b: string) {
    exists k: nat :: k <= |a| && k < |b| && a[..k] == b[..k] && (k == |a| || a[k] < b[k])
  }

  lemma {:induction false} LessIsBefore(a: string, b: string)
    ensures Less(a, b) <==> IsBefore(a, b)
  {
    if a == "" {
      if b != "" {
        assert a[..0] == b[..0];
      }
    } else if b != "" {
      LessIsBefore(a[1..], b[1..]);
      BeforeByHead(a, b);
    }
  }

  lemma BeforeByHead(a: string, b: string)
    requires a != "" && b != ""
    ensures IsBefore(a, b) <==> a[0] < b[0] || (a[0] == b[0] && IsBefore(a[1..], b[1..]))
  {
    if a[0] < b[0] {
      assert a[..0] == b[..0];
    }
    if a[0] == b[0] && IsBefore(a[1..], b[1..]) {
      var k: nat :| k <= |a| - 1 && k < |b| - 1 && a[1..][..k] == b[1..][..k] && (k == |a| - 1 || a[k + 1] < b[k + 1]);
      assert a[..k + 1] == [a[0]] + a[1..][..k] && b[..k + 1] == [b[0]] + b[1..][..k];
    }
    if IsBefore(a, b) {
      var k: nat :| k <= |a| && k < |b| && a[..k] == b[..k] && (k == |a| || a[k] < b[k]);
      if k > 0 {
        assert a[..k][0] == b[..k][0];
        assert a[1..][..k - 1] == a[..k][1..] && b[1..][..k - 1] == b[..k][1..];
      }
    }
  }
}
