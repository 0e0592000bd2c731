/** Order-insensitive list helpers: Python's `sorted` and first-occurrence deduplication. */
module Lists {

  /** Python's order on strings: by code point, shorter prefix first. */
  predicate Leq(a: string, b: string) {
    if a == "" then true
    else if b == "" then false
    else a[0] < b[0] || (a[0] == b[0] && Leq(a[1..], b[1..]))
  }

  function Insert(x: string, xs: seq<string>): seq<string> {
    if xs == [] || Leq(x, xs[0]) then [x] + xs else [xs[0]] + Insert(x, xs[1..])
  }

  function Sorted(xs: seq<string>): seq<string> {
    if xs == [] then [] else Insert(xs[0], Sorted(xs[1..]))
  }

  lemma {:induction false} InsertSame(x: string, xs: seq<string>)
    ensures multiset(Insert(x, xs)) == multiset{x} + multiset(xs)
  {
    if xs != [] && !Leq(x, xs[0]) {
      InsertSame(x, xs[1..]);
      assert xs == [xs[0]] + xs[1..];
    }
  }

  /** Sorting only reorders. */
  lemma {:induction false} SortedSame(xs: seq<string>)
    ensures multiset(Sorted(xs)) == multiset(xs) && |Sorted(xs)| == |xs|
    ensures forall x :: x in Sorted(xs) <==> x in xs
  {
    if xs != [] {
      SortedSame(xs[1..]);
      InsertSame(xs[0], Sorted(xs[1..]));
      assert xs == [xs[0]] + xs[1..];
    }
    SameMembers(Sorted(xs), xs);
  }

  lemma {:induction false} LeqTotal(a: string, b: string)
    ensures Leq(a, b) || Leq(b, a)
  {
    if a != "" && b != "" { LeqTotal(a[1..], b[1..]); }
  }

  lemma {:induction false} LeqTransitive(a: string, b: string, c: string)
    requires Leq(a, b) && Leq(b, c)
    ensures Leq(a, c)
  {
    if a != "" && b != "" && c != "" && a[0] == b[0] == c[0] { LeqTransitive(a[1..], b[1..], c[1..]); }
  }

  predicate Ascending(xs: seq<string>) {
    forall i, j :: 0 <= i < j < |xs| ==> Leq(xs[i], xs[j])
  }

  lemma {:induction false} InsertAscending(x: string, xs: seq<string>)
    requires Ascending(xs)
    ensures Ascending(Insert(x, xs))
  {
    hide Leq;
    if xs != [] {
      var rest := xs[1..];
      if Leq(x, xs[0]) {
        forall i | 0 <= i < |xs| ensures Leq(x, xs[i]) {
          if i > 0 { LeqTransitive(x, xs[0], xs[i]); }
        }
      } else {
        LeqTotal(x, xs[0]);
        InsertAscending(x, rest);
        var up := Insert(x, rest);
        InsertSame(x, rest);
        forall i | 0 <= i < |up| ensures Leq(xs[0], up[i]) {
          assert up[i] in multiset(up);
          assert up[i] == x || up[i] in rest;
        }
      }
    }
  }

  /** Sorting sorts. */
  lemma {:induction false} SortedAscending(xs: seq<string>)
    ensures Ascending(Sorted(xs))
  {
    if xs != [] {
      SortedAscending(xs[1..]);
      InsertAscending(xs[0], Sorted(xs[1..]));
    }
  }

  lemma SameMembers(a: seq<string>, b: seq<string>)
    requires multiset(a) == multiset(b)
    ensures |a| == |b| && forall x :: x in a <==> x in b
  {
    assert |a| == |multiset(a)| && |b| == |multiset(b)|;
    forall x ensures x in a <==> x in b {
      assert x in a <==> x in multiset(a);
      assert x in b <==> x in multiset(b);
    }
  }

  lemma {:induction false} DistinctIff(xs: seq<string>)
    ensures (forall i, j :: 0 <= i < j < |xs| ==> xs[i] != xs[j]) <==> forall x :: multiset(xs)[x] <= 1
  {
    if xs != [] {
      var init, last := xs[..|xs| - 1], xs[|xs| - 1];
      assert xs == init + [last];
      DistinctIff(init);
      if last in init {
        var k :| 0 <= k < |init| && init[k] == last;
        assert xs[k] == xs[|xs| - 1] && last in multiset(init) && multiset(xs)[last] >= 2;
      } else {
        assert last !in multiset(init);
        assert forall x :: multiset(xs)[x] == multiset(init)[x] + if x == last then 1 else 0;
      }
    }
  }

  lemma SortedDistinct(xs: seq<string>)
    requires forall i, j :: 0 <= i < j < |xs| ==> xs[i] != xs[j]
    ensures forall i, j :: 0 <= i < j < |Sorted(xs)| ==> Sorted(xs)[i] != Sorted(xs)[j]
  {
    SortedSame(xs);
    DistinctIff(xs);
    DistinctIff(Sorted(xs));
  }

  lemma SortedSingle(xs: seq<string>, x: string)
    ensures Sorted(xs) == [x] <==> xs == [x]
  {
    SortedSame(xs);
    if |xs| == 1 {
      assert xs[0] in Sorted(xs) && Sorted(xs)[0] in xs;
    }
  }

  /** `_dedupe_preserve_order`. */
  function Dedupe(xs: seq<string>): (r: seq<string>)
    ensures forall x :: x in r <==> x in xs
    ensures |r| <= |xs| && forall i, j :: 0 <= i < j < |r| ==> r[i] != r[j]
  {
    if xs == [] then []
    else
      var init := Dedupe(xs[..|xs| - 1]);
      var last := xs[|xs| - 1];
      assert xs == xs[..|xs| - 1] + [last];
      if last in init then init else init + [last]
  }

  lemma {:induction false} DedupeDistinct(xs: seq<string>)
    requires forall i, j :: 0 <= i < j < |xs| ==> xs[i] != xs[j]
    ensures Dedupe(xs) == xs
  {
    if xs != [] {
      DedupeDistinct(xs[..|xs| - 1]);
      assert xs == xs[..|xs| - 1] + [xs[|xs| - 1]];
    }
  }
}
