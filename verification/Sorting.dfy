/** Slices of strings in the order sort.Strings leaves them. */
module Sorting {

  predicate Less(a: string, b: string) {
    b != [] && (a == [] || a[0] < b[0] || (a[0] == b[0] && Less(a[1..], b[1..])))
  }

  lemma {:induction false} LessTransitive(a: string, b: string, c: string)
    requires Less(a, b) && Less(b, c)
    ensures Less(a, c)
  {
    if a != [] && a[0] == b[0] && b[0] == c[0] {
      LessTransitive(a[1..], b[1..], c[1..]);
    }
  }

  lemma {:induction false} LessTotal(a: string, b: string)
    ensures a == b || Less(a, b) || Less(b, a)
    ensures !(Less(a, b) && Less(b, a))
  {
    if a != [] && b != [] && a[0] == b[0] {
      LessTotal(a[1..], b[1..]);
      assert a == [a[0]] + a[1..] && b == [b[0]] + b[1..];
    }
  }

  // The order of a dictionary: a proper prefix comes first, and otherwise the first
  // characters that differ decide.
  ghost predicate DiffersAt(a: string, b: string, n: nat) {
    n < |b| && n <= |a| && a[..n] == b[..n] && (n == |a| || a[n] < b[n])
  }

  lemma {:induction false} LessIff(a: string, b: string)
    ensures Less(a, b) <==> exists n: nat :: DiffersAt(a, b, n)
    decreases |a|
  {
    if b != [] && a != [] && a[0] == b[0] {
      LessIff(a[1..], b[1..]);
      if n: nat :| DiffersAt(a[1..], b[1..], n) {
        assert a[..n + 1] == [a[0]] + a[1..][..n] && b[..n + 1] == [b[0]] + b[1..][..n];
        assert DiffersAt(a, b, n + 1);
      }
      if n: nat :| DiffersAt(a, b, n) {
        assert n > 0;
        assert a[1..][..n - 1] == a[..n][1..] && b[1..][..n - 1] == b[..n][1..];
        assert DiffersAt(a[1..], b[1..], n - 1);
      }
    } else {
      if Less(a, b) {
        assert DiffersAt(a, b, 0);
      }
      assert forall n: nat :: n > 0 && n <= |a| && n <= |b| && a[..n] == b[..n] ==> a[..n][0] == b[..n][0];
    }
  }

  // Sorted, as sort.Strings leaves a slice.
  ghost predicate Sorted(xs: seq<string>) {
    forall i, j :: 0 <= i < j < |xs| ==> !Less(xs[j], xs[i])
  }

  function Insert(x: string, xs: seq<string>): seq<string> {
    if xs == [] || !Less(xs[0], x) then [x] + xs else [xs[0]] + Insert(x, xs[1..])
  }

  function Sort(xs: seq<string>): seq<string> {
    if xs == [] then [] else Insert(xs[0], Sort(xs[1..]))
  }

  lemma {:induction false} InsertPermutes(x: string, xs: seq<string>)
    ensures multiset(Insert(x, xs)) == multiset(xs) + multiset{x}
  {
    if xs != [] {
      assert xs == [xs[0]] + xs[1..];
      InsertPermutes(x, xs[1..]);
    }
  }

  lemma {:induction false} SortPermutes(xs: seq<string>)
    ensures multiset(Sort(xs)) == multiset(xs)
  {
    if xs != [] {
      assert xs == [xs[0]] + xs[1..];
      SortPermutes(xs[1..]);
      InsertPermutes(xs[0], Sort(xs[1..]));
    }
  }

  lemma {:induction false} InsertSorted(x: string, xs: seq<string>)
    requires Sorted(xs)
    ensures Sorted(Insert(x, xs))
  {
    if xs == [] {
    } else if !Less(xs[0], x) {
      forall j | 0 <= j < |xs|
        ensures !Less(xs[j], x)
      {
        if Less(xs[j], x) {
          LessTotal(xs[0], x);
          if xs[0] != x {
            LessTransitive(xs[j], x, xs[0]);
          }
        }
      }
    } else {
      InsertSorted(x, xs[1..]);
      InsertPermutes(x, xs[1..]);
      var r := Insert(x, xs[1..]);
      forall j | 0 <= j < |r|
        ensures !Less(r[j], xs[0])
      {
        assert r[j] in multiset(r);
        LessTotal(xs[0], x);
      }
    }
  }

  lemma {:induction false} SortSorts(xs: seq<string>)
    ensures Sorted(Sort(xs))
  {
    if xs != [] {
      SortSorts(xs[1..]);
      InsertSorted(xs[0], Sort(xs[1..]));
    }
  }

  // Two sorted slices with the same contents are the same: the order in which
  // a map's keys were collected leaves no trace.
  lemma {:induction false} SortedUnique(xs: seq<string>, ys: seq<string>)
    requires Sorted(xs) && Sorted(ys) && multiset(xs) == multiset(ys)
    ensures xs == ys
  {
    if xs == [] {
      assert |multiset(ys)| == 0;
    } else {
      SameHead(xs, ys);
      TailContents(xs);
      TailContents(ys);
      SortedUnique(xs[1..], ys[1..]);
    }
  }

  lemma SameHead(xs: seq<string>, ys: seq<string>)
    requires Sorted(xs) && Sorted(ys) && multiset(xs) == multiset(ys) && xs != []
    ensures ys != [] && xs[0] == ys[0]
  {
    assert |multiset(xs)| == |xs| && |multiset(ys)| == |ys|;
    assert xs[0] in multiset(ys) && ys[0] in multiset(xs);
    var i :| 0 <= i < |ys| && ys[i] == xs[0];
    var j :| 0 <= j < |xs| && xs[j] == ys[0];
    LessTotal(xs[0], ys[0]);
  }

  lemma TailContents(xs: seq<string>)
    requires xs != []
    ensures multiset(xs[1..]) == multiset(xs) - multiset{xs[0]} && xs == [xs[0]] + xs[1..]
  {
    assert xs == [xs[0]] + xs[1..];
  }

  lemma SortedIsSorted(xs: seq<string>)
    requires Sorted(xs)
    ensures Sort(xs) == xs
  {
    SortSorts(xs);
    SortPermutes(xs);
    SortedUnique(Sort(xs), xs);
  }

  // The elements of a set in some order.
  ghost function Enumeration(keys: set<string>): (r: seq<string>)
    ensures multiset(r) == multiset(keys)
  {
    if keys == {} then []
    else
      var k :| k in keys;
      [k] + Enumeration(keys - {k})
  }

  // The elements of a set, sorted.
  ghost function Listing(keys: set<string>): seq<string> { Sort(Enumeration(keys)) }

  lemma ListingIs(keys: set<string>)
    ensures multiset(Listing(keys)) == multiset(keys) && Sorted(Listing(keys))
  {
    SortSorts(Enumeration(keys));
    SortPermutes(Enumeration(keys));
  }

  // However the elements were collected, sorting them gives the listing.
  lemma SortGivesListing(xs: seq<string>, keys: set<string>)
    requires multiset(xs) == multiset(keys)
    ensures Sort(xs) == Listing(keys)
  {
    SortSorts(xs);
    SortPermutes(xs);
    ListingIs(keys);
    SortedUnique(Sort(xs), Listing(keys));
  }

  lemma ListingHas(keys: set<string>, k: string)
    ensures k in Listing(keys) <==> k in keys
  {
    ListingIs(keys);
    assert k in multiset(Listing(keys)) <==> k in multiset(keys);
  }
}
