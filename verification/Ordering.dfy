/** Sorting by a comparison and binary search, as the tables and the skeleton index use them. */
module Ordering {
  import opened Common

  ghost predicate TotalOrder<T(!new)>(le: (T, T) -> bool) {
    && (forall a, b :: le(a, b) || le(b, a))
    && (forall a, b, c :: le(a, b) && le(b, c) ==> le(a, c))
  }

  ghost predicate Sorted<T>(le: (T, T) -> bool, s: seq<T>) {
    forall i, j :: 0 <= i < j < |s| ==> le(s[i], s[j])
  }

  /** No two positions are ordered both ways. */
  ghost predicate Strict<T>(le: (T, T) -> bool, s: seq<T>) {
    forall i, j :: 0 <= i < j < |s| ==> !(le(s[i], s[j]) && le(s[j], s[i]))
  }

  /** Inserts after everything that is not greater. */
  function Insert<T>(le: (T, T) -> bool, x: T, s: seq<T>): seq<T> {
    if s == [] || !le(s[0], x) then [x] + s else [s[0]] + Insert(le, x, s[1..])
  }

  /** A stable sort. */
  function Sort<T>(le: (T, T) -> bool, s: seq<T>): seq<T> {
    if s == [] then [] else Insert(le, s[|s| - 1], Sort(le, s[..|s| - 1]))
  }

  lemma {:induction false} InsertMultiset<T>(le: (T, T) -> bool, x: T, s: seq<T>)
    ensures multiset(Insert(le, x, s)) == multiset(s) + multiset{x}
  {
    if s != [] && le(s[0], x) {
      InsertMultiset(le, x, s[1..]);
      assert s == [s[0]] + s[1..];
    }
  }

  ghost predicate Below<T>(le: (T, T) -> bool, x: T, s: seq<T>) {
    forall i :: 0 <= i < |s| ==> le(x, s[i])
  }

  lemma SortedCons<T>(le: (T, T) -> bool, x: T, s: seq<T>)
    requires Below(le, x, s) && Sorted(le, s)
    ensures Sorted(le, [x] + s)
  {
  }

  lemma {:induction false} InsertBelow<T>(le: (T, T) -> bool, low: T, x: T, s: seq<T>)
    requires Below(le, low, s) && le(low, x)
    ensures Below(le, low, Insert(le, x, s))
  {
    if s != [] && le(s[0], x) {
      InsertBelow(le, low, x, s[1..]);
    }
  }

  lemma HeadBelow<T(!new)>(le: (T, T) -> bool, x: T, s: seq<T>)
    requires TotalOrder(le) && Sorted(le, s) && s != [] && le(x, s[0])
    ensures Below(le, x, s)
  {
    forall i | 0 <= i < |s|
      ensures le(x, s[i])
    {
      if i > 0 {
        assert le(s[0], s[i]);
      }
    }
  }

  lemma {:induction false} InsertSorted<T(!new)>(le: (T, T) -> bool, x: T, s: seq<T>)
    requires TotalOrder(le) && Sorted(le, s)
    ensures Sorted(le, Insert(le, x, s))
  {
    if s == [] {
    } else if le(s[0], x) {
      InsertSorted(le, x, s[1..]);
      InsertBelow(le, s[0], x, s[1..]);
      SortedCons(le, s[0], Insert(le, x, s[1..]));
    } else {
      HeadBelow(le, x, s);
      SortedCons(le, x, s);
    }
  }

  lemma {:induction false} SortKeeps<T(!new)>(le: (T, T) -> bool, s: seq<T>)
    requires TotalOrder(le)
    ensures Sorted(le, Sort(le, s)) && multiset(Sort(le, s)) == multiset(s)
  {
    hide TotalOrder, Insert;
    if s == [] {
      assert Sort(le, s) == [];
    } else {
      hide Sorted;
      SortKeeps(le, s[..|s| - 1]);
      InsertSorted(le, s[|s| - 1], Sort(le, s[..|s| - 1]));
      InsertMultiset(le, s[|s| - 1], Sort(le, s[..|s| - 1]));
      assert s == s[..|s| - 1] + [s[|s| - 1]];
    }
  }

  lemma SortMembers<T(!new)>(le: (T, T) -> bool, s: seq<T>)
    requires TotalOrder(le)
    ensures |Sort(le, s)| == |s| && forall x :: x in Sort(le, s) <==> x in s
  {
    SortKeeps(le, s);
    assert |multiset(Sort(le, s))| == |multiset(s)|;
    forall x
      ensures x in Sort(le, s) <==> x in s
    {
      assert x in multiset(Sort(le, s)) <==> x in multiset(s);
    }
  }

  lemma HeadLeast<T(!new)>(le: (T, T) -> bool, s: seq<T>, x: T)
    requires TotalOrder(le) && Sorted(le, s) && x in s
    ensures le(s[0], x)
  {
    var i :| 0 <= i < |s| && s[i] == x;
    if i > 0 {
      assert le(s[0], s[i]);
    }
  }

  lemma SameHead<T(!new)>(le: (T, T) -> bool, a: seq<T>, b: seq<T>)
    requires TotalOrder(le) && Sorted(le, a) && Sorted(le, b) && Strict(le, a)
    requires a != [] && b != [] && a[0] in b && b[0] in a
    ensures a[0] == b[0]
  {
    var k :| 0 <= k < |a| && a[k] == b[0];
    HeadLeast(le, a, b[0]);
    HeadLeast(le, b, a[0]);
  }

  lemma SameTails<T>(a: seq<T>, b: seq<T>)
    requires a != [] && b != [] && a[0] == b[0] && multiset(a) == multiset(b)
    ensures multiset(a[1..]) == multiset(b[1..])
  {
    assert a == [a[0]] + a[1..] && b == [b[0]] + b[1..];
    assert multiset(a[1..]) == multiset(a) - multiset{a[0]};
    assert multiset(b[1..]) == multiset(b) - multiset{b[0]};
  }

  lemma SameMembers<T>(a: seq<T>, b: seq<T>)
    requires multiset(a) == multiset(b)
    ensures |a| == |b| && forall x :: x in a <==> x in b
  {
    assert |multiset(a)| == |multiset(b)|;
    forall x
      ensures x in a <==> x in b
    {
      assert x in multiset(a) <==> x in multiset(b);
    }
  }

  /** Two sorted arrangements of the same items without ties are the same. */
  lemma {:induction false} SortedUnique<T(!new)>(le: (T, T) -> bool, a: seq<T>, b: seq<T>)
    requires TotalOrder(le) && Sorted(le, a) && Sorted(le, b) && Strict(le, a)
    requires multiset(a) == multiset(b)
    ensures a == b
  {
    hide TotalOrder, Sorted, Strict;
    SameMembers(a, b);
    if a != [] {
      SameHead(le, a, b);
      SortedTail(le, a);
      SortedTail(le, b);
      SameTails(a, b);
      SortedUnique(le, a[1..], b[1..]);
      assert a == [a[0]] + a[1..] && b == [b[0]] + b[1..];
    }
  }

  lemma SortedTail<T>(le: (T, T) -> bool, s: seq<T>)
    requires s != [] && Sorted(le, s)
    ensures Sorted(le, s[1..]) && (Strict(le, s) ==> Strict(le, s[1..]))
  {
  }

  // ----- binary search -----

  datatype Cmp = Less | Equal | Greater

  function Rank(c: Cmp): int {
    match c case Less => 0 case Equal => 1 case Greater => 2
  }

  /** The comparison of each item with what is sought never decreases along the sequence. */
  ghost predicate Searchable<T>(s: seq<T>, cmp: T -> Cmp) {
    forall i, j :: 0 <= i < j < |s| ==> Rank(cmp(s[i])) <= Rank(cmp(s[j]))
  }

  method BinarySearch<T>(s: seq<T>, cmp: T -> Cmp) returns (r: Option<nat>)
    requires Searchable(s, cmp)
    ensures r.Some? ==> r.value < |s| && cmp(s[r.value]) == Equal
    ensures r.None? ==> forall i :: 0 <= i < |s| ==> cmp(s[i]) != Equal
  {
    var lo, hi := 0, |s|;
    while lo < hi
      invariant 0 <= lo <= hi <= |s|
      invariant forall i :: 0 <= i < lo ==> cmp(s[i]) == Less
      invariant forall i :: hi <= i < |s| ==> cmp(s[i]) == Greater
    {
      var mid := lo + (hi - lo) / 2;
      match cmp(s[mid]) {
        case Less =>
          assert forall i :: 0 <= i < mid ==> Rank(cmp(s[i])) <= Rank(cmp(s[mid]));
          lo := mid + 1;
        case Equal =>
          return Some(mid);
        case Greater =>
          assert forall i :: mid < i < |s| ==> Rank(cmp(s[mid])) <= Rank(cmp(s[i]));
          hi := mid;
      }
    }
    return None;
  }

  // ----- strings in byte order -----

  predicate TextLe(a: string, b: string) {
    if a == "" then true
    else if b == "" then false
    else if a[0] != b[0] then a[0] < b[0]
    else TextLe(a[1..], b[1..])
  }

  lemma {:induction false} TextTotal(a: string, b: string)
    ensures TextLe(a, b) || TextLe(b, a)
    ensures TextLe(a, b) && TextLe(b, a) ==> a == b
  {
    if a != "" && b != "" && a[0] == b[0] {
      TextTotal(a[1..], b[1..]);
      assert a == [a[0]] + a[1..] && b == [b[0]] + b[1..];
    }
  }

  lemma {:induction false} TextTransitive(a: string, b: string, c: string)
    requires TextLe(a, b) && TextLe(b, c)
    ensures TextLe(a, c)
  {
    if a != "" && b != "" && c != "" && a[0] == b[0] == c[0] {
      TextTransitive(a[1..], b[1..], c[1..]);
    }
  }

  // ----- distinctness survives reordering -----

  ghost predicate NoPair<T>(same: (T, T) -> bool, s: seq<T>) {
    forall i, j :: 0 <= i < j < |s| ==> !same(s[i], s[j])
  }

  lemma TwoPlaces<T>(s: seq<T>, x: T, y: T) returns (p: nat, q: nat)
    requires multiset{x, y} <= multiset(s)
    ensures p < |s| && q < |s| && p != q && s[p] == x && s[q] == y
  {
    assert x in multiset(s) by {
      assert multiset{x, y}[x] >= 1;
    }
    p :| 0 <= p < |s| && s[p] == x;
    var rest := s[..p] + s[p + 1..];
    assert s == s[..p] + [x] + s[p + 1..];
    assert multiset(s) == multiset(rest) + multiset{x};
    assert y in multiset(rest) by {
      assert multiset{x, y} == multiset{x} + multiset{y};
      assert multiset{y} <= multiset(rest);
    }
    var k :| 0 <= k < |rest| && rest[k] == y;
    q := if k < p then k else k + 1;
  }

  lemma NoPairReordered<T(!new)>(same: (T, T) -> bool, a: seq<T>, b: seq<T>)
    requires multiset(a) == multiset(b) && NoPair(same, a) && forall x, y :: same(x, y) ==> same(y, x)
    ensures NoPair(same, b)
  {
    forall i, j | 0 <= i < j < |b|
      ensures !same(b[i], b[j])
    {
      assert b == b[..i] + [b[i]] + b[i + 1..j] + [b[j]] + b[j + 1..];
      assert multiset{b[i], b[j]} <= multiset(b);
      var p, q := TwoPlaces(a, b[i], b[j]);
    }
  }
}
