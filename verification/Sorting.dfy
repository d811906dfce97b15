/** Sorting strings, as Python's `sorted`: by code point, shorter first among equal beginnings. */
module Sorting {
  predicate Precedes(a: string, b: string) {
    a == "" || (b != "" && (a[0] < b[0] || (a[0] == b[0] && Precedes(a[1..], b[1..]))))
  }

  predicate Ascending(s: seq<string>) {
    forall k, l :: 0 <= k < l < |s| ==> Precedes(s[k], s[l])
  }

  predicate Distinct<T(==)>(s: seq<T>) {
    forall k, l :: 0 <= k < l < |s| ==> s[k] != s[l]
  }

  // ---------- the order ----------

  lemma {:induction false} PrecedesTotal(a: string, b: string)
    ensures Precedes(a, b) || Precedes(b, a)
  {
    if a != "" && b != "" {
      PrecedesTotal(a[1..], b[1..]);
    }
  }

  lemma {:induction false} PrecedesTransitive(a: string, b: string, c: string)
    requires Precedes(a, b) && Precedes(b, c)
    ensures Precedes(a, c)
  {
    if a != "" && a[0] == b[0] == c[0] {
      PrecedesTransitive(a[1..], b[1..], c[1..]);
    }
  }

  lemma {:induction false} PrecedesAntisymmetric(a: string, b: string)
    requires Precedes(a, b) && Precedes(b, a)
    ensures a == b
  {
    if a != "" {
      PrecedesAntisymmetric(a[1..], b[1..]);
      assert a == [a[0]] + a[1..] && b == [b[0]] + b[1..];
    }
  }

  // ---------- the sort ----------

  function Place(x: string, s: seq<string>): seq<string> {
    if s == [] || Precedes(x, s[0]) then [x] + s else [s[0]] + Place(x, s[1..])
  }

  function Sorted(s: seq<string>): seq<string> {
    if s == [] then [] else Place(s[0], Sorted(s[1..]))
  }

  lemma {:induction false} PlaceKeeps(x: string, s: seq<string>)
    ensures multiset(Place(x, s)) == multiset(s) + multiset{x}
  {
    hide Precedes;
    if s != [] && !Precedes(x, s[0]) {
      PlaceKeeps(x, s[1..]);
      assert s == [s[0]] + s[1..];
    }
  }

  lemma {:induction false} AscendingCons(x: string, s: seq<string>)
    requires Ascending(s) && forall k :: 0 <= k < |s| ==> Precedes(x, s[k])
    ensures Ascending([x] + s)
  {
    hide Precedes;
  }

  lemma {:induction false} PrecedesAll(x: string, s: seq<string>)
    requires Ascending(s) && s != [] && Precedes(x, s[0])
    ensures forall k :: 0 <= k < |s| ==> Precedes(x, s[k])
  {
    hide Precedes;
    forall k | 0 < k < |s| ensures Precedes(x, s[k]) {
      PrecedesTransitive(x, s[0], s[k]);
    }
  }

  lemma {:induction false} PlaceAfter(a: string, x: string, s: seq<string>)
    requires Precedes(a, x) && forall k :: 0 <= k < |s| ==> Precedes(a, s[k])
    ensures forall k :: 0 <= k < |Place(x, s)| ==> Precedes(a, Place(x, s)[k])
  {
    hide Precedes;
    if s != [] && !Precedes(x, s[0]) {
      PlaceAfter(a, x, s[1..]);
    }
  }

  lemma {:induction false} PlaceAscending(x: string, s: seq<string>)
    requires Ascending(s)
    ensures Ascending(Place(x, s))
  {
    hide Precedes;
    if s == [] {
    } else if Precedes(x, s[0]) {
      PrecedesAll(x, s);
      AscendingCons(x, s);
    } else {
      PrecedesTotal(x, s[0]);
      assert forall k :: 0 < k < |s| ==> Precedes(s[0], s[k]);
      PlaceAscending(x, s[1..]);
      PlaceAfter(s[0], x, s[1..]);
      AscendingCons(s[0], Place(x, s[1..]));
    }
  }

  /** Sorting rearranges into ascending order. */
  lemma {:induction false} SortedIs(s: seq<string>)
    ensures Ascending(Sorted(s)) && multiset(Sorted(s)) == multiset(s)
  {
    hide Precedes;
    if s != [] {
      SortedIs(s[1..]);
      PlaceAscending(s[0], Sorted(s[1..]));
      PlaceKeeps(s[0], Sorted(s[1..]));
      assert s == [s[0]] + s[1..];
    }
  }

  /** There is only one ascending arrangement. */
  lemma {:induction false} AscendingUnique(a: seq<string>, b: seq<string>)
    requires Ascending(a) && Ascending(b) && multiset(a) == multiset(b)
    ensures a == b
    decreases |a|
  {
    hide Precedes, Ascending;
    SameLength(a, b);
    if a != [] {
      SameHead(a, b);
      HeadAndTail(a);
      HeadAndTail(b);
      AscendingUnique(a[1..], b[1..]);
    }
  }

  lemma SameLength(a: seq<string>, b: seq<string>)
    requires multiset(a) == multiset(b)
    ensures |a| == |b|
  {
    assert |multiset(a)| == |multiset(b)|;
  }

  lemma HeadAndTail(s: seq<string>)
    requires s != []
    ensures s == [s[0]] + s[1..] && multiset(s[1..]) == multiset(s) - multiset{s[0]}
    ensures Ascending(s) ==> Ascending(s[1..])
  {
    hide Precedes;
    assert s == [s[0]] + s[1..];
  }

  lemma SameHead(a: seq<string>, b: seq<string>)
    requires Ascending(a) && Ascending(b) && multiset(a) == multiset(b) && |a| == |b| > 0
    ensures a[0] == b[0]
  {
    hide Precedes;
    assert a[0] in multiset(b) && b[0] in multiset(a);
    var k :| 0 <= k < |b| && b[k] == a[0];
    var l :| 0 <= l < |a| && a[l] == b[0];
    if k > 0 && l > 0 {
      PrecedesAntisymmetric(a[0], b[0]);
    }
  }

  /** Sorting distinct strings leaves the same strings, distinct. */
  lemma {:induction false} SortedDistinct(s: seq<string>)
    requires Distinct(s)
    ensures Distinct(Sorted(s)) && forall x :: x in Sorted(s) <==> x in s
  {
    var r := Sorted(s);
    SortedIs(s);
    hide Ascending, Sorted;
    forall x ensures x in r <==> x in s {
      assert x in r <==> x in multiset(r);
    }
    OnceEach(s);
    forall k, l | 0 <= k < l < |r| ensures r[k] != r[l] {
      if r[k] == r[l] {
        Twice(r, k, l);
      }
    }
  }

  lemma {:induction false} OnceEach(s: seq<string>)
    requires Distinct(s)
    ensures forall x :: multiset(s)[x] <= 1
  {
    if s != [] {
      OnceEach(s[1..]);
      assert s == [s[0]] + s[1..];
    }
  }

  lemma Twice(s: seq<string>, k: nat, l: nat)
    requires k < l < |s| && s[k] == s[l]
    ensures multiset(s)[s[k]] >= 2
  {
    assert s == s[..l] + [s[l]] + s[l + 1..];
    assert s[k] in s[..l];
  }
}
