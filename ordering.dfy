/**
 * The order `to_update` is sorted in: by project, then by name within one
 * project, both compared as strings. The comparison is ordinal (code point
 * by code point); the sort is modelled by insertion sort, and
 * SortedUnique shows that any correct sort gives the same list here.
 */
module Ordering {
  import opened BuildService

  /** Ordinal string comparison: negative, zero or positive as `a` sorts before, equal to or after `b`. */
  function CompareOrdinal(a: string, b: string): (c: int)
    ensures -1 <= c <= 1
  {
    if a == [] then (if b == [] then 0 else -1)
    else if b == [] then 1
    else if a[0] < b[0] then -1
    else if b[0] < a[0] then 1
    else CompareOrdinal(a[1..], b[1..])
  }

  lemma {:induction false} CompareAntisymmetric(a: string, b: string)
    ensures CompareOrdinal(a, b) == -CompareOrdinal(b, a)
  {
    if a != [] && b != [] && a[0] == b[0] {
      CompareAntisymmetric(a[1..], b[1..]);
    }
  }

  lemma {:induction false} CompareZeroIffEqual(a: string, b: string)
    ensures CompareOrdinal(a, b) == 0 <==> a == b
  {
    if a != [] && b != [] && a[0] == b[0] {
      CompareZeroIffEqual(a[1..], b[1..]);
      assert a == [a[0]] + a[1..] && b == [b[0]] + b[1..];
    }
  }

  lemma {:induction false} CompareTransitive(a: string, b: string, c: string)
    requires CompareOrdinal(a, b) <= 0 && CompareOrdinal(b, c) <= 0
    ensures CompareOrdinal(a, c) <= 0
  {
    if a != [] && b != [] && c != [] && a[0] == b[0] == c[0] {
      CompareTransitive(a[1..], b[1..], c[1..]);
    }
  }

  /** The comparer handed to List.Sort: project first, then name within one project. */
  function ComparePackages(a: Package, b: Package): int
  {
    if a.project == b.project then CompareOrdinal(a.name, b.name)
    else CompareOrdinal(a.project, b.project)
  }

  lemma PackagesAntisymmetric(a: Package, b: Package)
    ensures ComparePackages(a, b) == -ComparePackages(b, a)
  {
    CompareAntisymmetric(a.name, b.name);
    CompareAntisymmetric(a.project, b.project);
  }

  /** The comparer calls two packages equal exactly when they share project and name. */
  lemma PackagesZeroIffSameKey(a: Package, b: Package)
    ensures ComparePackages(a, b) == 0 <==> a.project == b.project && a.name == b.name
  {
    CompareZeroIffEqual(a.name, b.name);
    CompareZeroIffEqual(a.project, b.project);
  }

  lemma PackagesTransitive(a: Package, b: Package, c: Package)
    requires ComparePackages(a, b) <= 0 && ComparePackages(b, c) <= 0
    ensures ComparePackages(a, c) <= 0
  {
    CompareZeroIffEqual(a.project, b.project);
    CompareZeroIffEqual(b.project, c.project);
    CompareZeroIffEqual(a.project, c.project);
    CompareAntisymmetric(a.project, b.project);
    if a.project == b.project && b.project == c.project {
      CompareTransitive(a.name, b.name, c.name);
    } else if a.project != b.project && b.project != c.project {
      CompareTransitive(a.project, b.project, c.project);
    }
  }

  /** Ascending by (project, name). */
  predicate Sorted(s: seq<Package>)
  {
    forall i, j :: 0 <= i < j < |s| ==> ComparePackages(s[i], s[j]) <= 0
  }

  /** No two packages of the list share a name. */
  predicate DistinctNames(s: seq<Package>)
  {
    forall i, j :: 0 <= i < j < |s| ==> s[i].name != s[j].name
  }

  function Insert(p: Package, s: seq<Package>): (r: seq<Package>)
    ensures multiset(r) == multiset(s) + multiset{p}
  {
    if s == [] then [p]
    else if ComparePackages(p, s[0]) <= 0 then [p] + s
    else
      assert s == [s[0]] + s[1..];
      [s[0]] + Insert(p, s[1..])
  }

  /** A package that sorts before every element of a sorted list can head it. */
  lemma PrependSorted(x: Package, t: seq<Package>)
    requires Sorted(t)
    requires forall j :: 0 <= j < |t| ==> ComparePackages(x, t[j]) <= 0
    ensures Sorted([x] + t)
  {
    var r := [x] + t;
    forall i, j | 0 <= i < j < |r| ensures ComparePackages(r[i], r[j]) <= 0 {
      if i == 0 {
        assert r[j] == t[j - 1];
      } else {
        assert r[i] == t[i - 1] && r[j] == t[j - 1];
      }
    }
  }

  lemma {:induction false} InsertSorted(p: Package, s: seq<Package>)
    requires Sorted(s)
    ensures Sorted(Insert(p, s))
  {
    if s == [] {
    } else if ComparePackages(p, s[0]) <= 0 {
      forall j | 0 <= j < |s| ensures ComparePackages(p, s[j]) <= 0 {
        if j > 0 {
          PackagesTransitive(p, s[0], s[j]);
        }
      }
      PrependSorted(p, s);
    } else {
      InsertSorted(p, s[1..]);
      var t := Insert(p, s[1..]);
      PackagesAntisymmetric(p, s[0]);
      forall j | 0 <= j < |t| ensures ComparePackages(s[0], t[j]) <= 0 {
        assert t[j] in multiset(t);
        if t[j] != p {
          assert t[j] in multiset(s[1..]);
          var k :| 0 <= k < |s[1..]| && s[1..][k] == t[j];
          assert s[k + 1] == t[j];
        }
      }
      PrependSorted(s[0], t);
    }
  }

  /** The sort of `to_update`: a permutation of its input in ascending (project, name) order. */
  function SortPackages(s: seq<Package>): (r: seq<Package>)
    ensures multiset(r) == multiset(s)
    ensures Sorted(r)
  {
    if s == [] then []
    else
      var t := SortPackages(s[1..]);
      InsertSorted(s[0], t);
      assert s == [s[0]] + s[1..];
      Insert(s[0], t)
  }

  /** Inserting a package whose name the list lacks keeps the names distinct. */
  lemma {:induction false} InsertDistinct(p: Package, s: seq<Package>)
    requires DistinctNames(s)
    requires forall j :: 0 <= j < |s| ==> s[j].name != p.name
    ensures DistinctNames(Insert(p, s))
  {
    if s != [] && ComparePackages(p, s[0]) > 0 {
      InsertDistinct(p, s[1..]);
      var t := Insert(p, s[1..]);
      forall j | 0 <= j < |t| ensures t[j].name != s[0].name {
        InsertMember(p, s[1..], t[j]);
      }
      PrependDistinct(s[0], t);
    } else if s != [] {
      PrependDistinct(p, s);
    }
  }

  /** An inserted list holds the inserted package and the list's own packages, nothing else. */
  lemma InsertMember(p: Package, s: seq<Package>, q: Package)
    requires q in Insert(p, s)
    ensures q == p || q in s
  {
    assert q in multiset(Insert(p, s));
  }

  /** A package whose name a list without repeated names lacks can head it. */
  lemma PrependDistinct(x: Package, t: seq<Package>)
    requires DistinctNames(t)
    requires forall j :: 0 <= j < |t| ==> t[j].name != x.name
    ensures DistinctNames([x] + t)
  {
    var r := [x] + t;
    forall a, b | 0 <= a < b < |r| ensures r[a].name != r[b].name {
      assert r[b] == t[b - 1];
    }
  }

  /** Sorting a list whose names are distinct keeps them distinct. */
  lemma {:induction false} SortKeepsDistinctNames(s: seq<Package>)
    requires DistinctNames(s)
    ensures DistinctNames(SortPackages(s))
  {
    if s != [] {
      var t := SortPackages(s[1..]);
      SortKeepsDistinctNames(s[1..]);
      forall j | 0 <= j < |t| ensures t[j].name != s[0].name {
        assert t[j] in multiset(s[1..]);
        var k :| 0 <= k < |s[1..]| && s[1..][k] == t[j];
        assert s[k + 1] == t[j];
      }
      InsertDistinct(s[0], t);
    }
  }

  /**
   * Two sorted permutations of a list whose names are distinct are equal,
   * so the result of the sort depends neither on the sorting algorithm
   * (List.Sort is not stable) nor on the order of its input.
   */
  lemma {:induction false} SortedUnique(a: seq<Package>, b: seq<Package>)
    requires Sorted(a) && Sorted(b)
    requires multiset(a) == multiset(b)
    requires DistinctNames(a)
    ensures a == b
  {
    if a == [] {
      assert |b| == |multiset(b)| == 0;
    } else {
      assert |b| == |multiset(b)| == |multiset(a)| > 0;
      SameHead(a, b);
      SameTail(a, b);
      SortedUnique(a[1..], b[1..]);
      assert a == [a[0]] + a[1..] && b == [b[0]] + b[1..];
    }
  }

  /** Permutations that share their first element are permutations after it too. */
  lemma SameTail(a: seq<Package>, b: seq<Package>)
    requires a != [] && b != [] && a[0] == b[0]
    requires multiset(a) == multiset(b)
    ensures multiset(a[1..]) == multiset(b[1..])
  {
    assert a == [a[0]] + a[1..] && b == [b[0]] + b[1..];
    assert multiset(a) == multiset{a[0]} + multiset(a[1..]);
    assert multiset(b) == multiset{b[0]} + multiset(b[1..]);
    assert multiset(a[1..]) == multiset(a) - multiset{a[0]};
    assert multiset(b[1..]) == multiset(b) - multiset{b[0]};
  }

  /** The first element of a sorted list with distinct names is fixed by its contents. */
  lemma SameHead(a: seq<Package>, b: seq<Package>)
    requires Sorted(a) && Sorted(b)
    requires multiset(a) == multiset(b)
    requires DistinctNames(a)
    requires a != [] && b != []
    ensures a[0] == b[0]
  {
    assert a[0] in multiset(b);
    var i :| 0 <= i < |b| && b[i] == a[0];
    assert b[0] in multiset(a);
    var j :| 0 <= j < |a| && a[j] == b[0];
    if j != 0 {
      assert ComparePackages(a[0], b[0]) <= 0;
      if i != 0 {
        assert ComparePackages(b[0], a[0]) <= 0;
        PackagesAntisymmetric(a[0], b[0]);
        PackagesZeroIffSameKey(a[0], b[0]);
      }
    }
  }

  /**
   * Two sorted lists without repeated names that hold the same packages are
   * equal: the sorted report does not depend on the order in which the
   * packages were collected.
   */
  lemma {:induction false} SameMembersSorted(a: seq<Package>, b: seq<Package>)
    requires Sorted(a) && Sorted(b)
    requires DistinctNames(a) && DistinctNames(b)
    requires forall p :: p in a <==> p in b
    ensures a == b
  {
    if a != [] && b != [] {
      SameFirst(a, b);
      SameTailMembers(a, b);
      SameTailMembers(b, a);
      SameMembersSorted(a[1..], b[1..]);
      assert a == [a[0]] + a[1..] && b == [b[0]] + b[1..];
    } else if a != [] {
      HeadIsMember(a);
      assert false;
    } else if b != [] {
      HeadIsMember(b);
      assert false;
    }
  }

  /** The first element of a non-empty list is one of its members. */
  lemma HeadIsMember(s: seq<Package>)
    requires s != []
    ensures s[0] in s
  {
  }

  /** Past a shared first element, lists without repeated names keep sharing their members. */
  lemma SameTailMembers(a: seq<Package>, b: seq<Package>)
    requires a != [] && b != [] && a[0] == b[0]
    requires DistinctNames(a)
    requires forall p :: p in a ==> p in b
    ensures forall p :: p in a[1..] ==> p in b[1..]
  {
    forall p | p in a[1..] ensures p in b[1..] {
      var k :| 0 <= k < |a[1..]| && a[1..][k] == p;
      assert a[k + 1] == p && p.name != a[0].name;
      assert p in a;
      var m :| 0 <= m < |b| && b[m] == p;
      assert b[1..][m - 1] == p;
    }
  }

  /** The first element of a sorted list without repeated names is fixed by its members. */
  lemma SameFirst(a: seq<Package>, b: seq<Package>)
    requires Sorted(a) && Sorted(b)
    requires DistinctNames(a)
    requires forall p :: p in a <==> p in b
    requires a != [] && b != []
    ensures a[0] == b[0]
  {
    assert a[0] in b;
    var j :| 0 <= j < |b| && b[j] == a[0];
    assert b[0] in a;
    var i :| 0 <= i < |a| && a[i] == b[0];
    if i != 0 && j != 0 {
      assert ComparePackages(a[0], b[0]) <= 0;
      assert ComparePackages(b[0], a[0]) <= 0;
      PackagesAntisymmetric(a[0], b[0]);
      PackagesZeroIffSameKey(a[0], b[0]);
    }
  }

  /** The order a reader of the report sees: project A before B, and a before z within A. */
  lemma ProjectThenName()
    ensures SortPackages([Package("B", "x", None, Account("api")),
                          Package("A", "z", None, Account("api")),
                          Package("A", "a", None, Account("api"))])
         == [Package("A", "a", None, Account("api")),
             Package("A", "z", None, Account("api")),
             Package("B", "x", None, Account("api"))]
  {
    var acc := Account("api");
    var bx, az, aa := Package("B", "x", None, acc), Package("A", "z", None, acc), Package("A", "a", None, acc);
    var input, expected := [bx, az, aa], [aa, az, bx];
    ExampleSorted(aa, az, bx);
    assert multiset(input) == multiset(expected);
    SortedUnique(expected, SortPackages(input));
  }

  lemma ExampleSorted(aa: Package, az: Package, bx: Package)
    requires aa.project == az.project == "A" && bx.project == "B"
    requires aa.name == "a" && az.name == "z" && bx.name == "x"
    ensures Sorted([aa, az, bx]) && DistinctNames([aa, az, bx])
  {
    assert CompareOrdinal("A", "B") == -1;
    assert CompareOrdinal("a", "z") == -1;
  }
}
