/**
 * The comparison of the two resolved snapshots: the devel packages whose
 * checksum Factory does not have (`to_update`), and the Factory packages
 * that no devel project lists any more (`to_remove`). Both lists are built
 * by walking a dictionary in its enumeration order.
 */
module Reconcile {
  import opened BuildService
  import opened Snapshots
  import opened Ordering

  /** A devel package needs updating when Factory lacks its name or holds a different checksum. */
  predicate NeedsUpdate(p: Package, factory: map<string, Package>)
  {
    p.name !in factory || factory[p.name].srcMd5 != p.srcMd5
  }

  /** The devel packages that need updating, as a set. */
  function Outdated(devel: map<string, Package>, factory: map<string, Package>): set<Package>
  {
    set k | k in devel && NeedsUpdate(devel[k], factory) :: devel[k]
  }

  /** The Factory packages whose name no devel project lists. */
  function Obsolete(devel: map<string, Package>, factory: map<string, Package>): set<Package>
  {
    set k | k in factory && factory[k].name !in devel :: factory[k]
  }

  /** Every key of `keys` is a key of `m`. */
  predicate Covers(keys: seq<string>, m: map<string, Package>)
  {
    forall i :: 0 <= i < |keys| ==> keys[i] in m
  }

  /** The packages `to_update` collects while walking `keys` in order. */
  function CollectOutdated(keys: seq<string>, devel: map<string, Package>, factory: map<string, Package>): seq<Package>
    requires Covers(keys, devel)
  {
    if keys == [] then []
    else
      var rest := CollectOutdated(keys[..|keys| - 1], devel, factory);
      var p := devel[keys[|keys| - 1]];
      if NeedsUpdate(p, factory) then rest + [p] else rest
  }

  /** The packages `to_remove` collects while walking `keys` in order. */
  function CollectObsolete(keys: seq<string>, devel: map<string, Package>, factory: map<string, Package>): seq<Package>
    requires Covers(keys, factory)
  {
    if keys == [] then []
    else
      var rest := CollectObsolete(keys[..|keys| - 1], devel, factory);
      var p := factory[keys[|keys| - 1]];
      if p.name !in devel then rest + [p] else rest
  }

  /** The walk collects exactly the outdated packages stored under the walked keys. */
  lemma {:induction false} CollectOutdatedMembers(keys: seq<string>, devel: map<string, Package>, factory: map<string, Package>)
    requires Covers(keys, devel)
    ensures forall p :: p in CollectOutdated(keys, devel, factory) <==>
      exists i :: 0 <= i < |keys| && p == devel[keys[i]] && NeedsUpdate(p, factory)
  {
    if keys != [] {
      var init := keys[..|keys| - 1];
      CollectOutdatedMembers(init, devel, factory);
      forall p ensures (exists i :: 0 <= i < |init| && p == devel[init[i]] && NeedsUpdate(p, factory)) <==>
                       (exists i :: 0 <= i < |keys| - 1 && p == devel[keys[i]] && NeedsUpdate(p, factory))
      {
        if exists i :: 0 <= i < |init| && p == devel[init[i]] && NeedsUpdate(p, factory) {
          var i :| 0 <= i < |init| && p == devel[init[i]] && NeedsUpdate(p, factory);
          assert keys[i] == init[i];
        }
      }
    }
  }

  /** The walk collects exactly the obsolete packages stored under the walked keys. */
  lemma {:induction false} CollectObsoleteMembers(keys: seq<string>, devel: map<string, Package>, factory: map<string, Package>)
    requires Covers(keys, factory)
    ensures forall p :: p in CollectObsolete(keys, devel, factory) <==>
      exists i :: 0 <= i < |keys| && p == factory[keys[i]] && p.name !in devel
  {
    if keys != [] {
      var init := keys[..|keys| - 1];
      CollectObsoleteMembers(init, devel, factory);
      forall p ensures (exists i :: 0 <= i < |init| && p == factory[init[i]] && p.name !in devel) <==>
                       (exists i :: 0 <= i < |keys| - 1 && p == factory[keys[i]] && p.name !in devel)
      {
        if exists i :: 0 <= i < |init| && p == factory[init[i]] && p.name !in devel {
          var i :| 0 <= i < |init| && p == factory[init[i]] && p.name !in devel;
          assert keys[i] == init[i];
        }
      }
    }
  }

  /** Walking keys whose stored packages carry their own key as name never collects two packages of one name. */
  lemma {:induction false} CollectOutdatedDistinct(keys: seq<string>, devel: map<string, Package>, factory: map<string, Package>)
    requires Covers(keys, devel)
    requires forall i, j :: 0 <= i < j < |keys| ==> keys[i] != keys[j]
    requires KeyedByName(devel)
    ensures DistinctNames(CollectOutdated(keys, devel, factory))
  {
    if keys != [] {
      var init := keys[..|keys| - 1];
      var last := keys[|keys| - 1];
      CollectOutdatedDistinct(init, devel, factory);
      CollectOutdatedMembers(init, devel, factory);
      var rest := CollectOutdated(init, devel, factory);
      if NeedsUpdate(devel[last], factory) {
        forall i | 0 <= i < |rest| ensures rest[i].name != last {
          assert rest[i] in rest;
          var j :| 0 <= j < |init| && rest[i] == devel[init[j]] && NeedsUpdate(rest[i], factory);
          assert init[j] == keys[j];
        }
      }
    }
  }

  /** Walking distinct keys of a name-keyed Factory snapshot never collects two packages of one name. */
  lemma {:induction false} CollectObsoleteDistinct(keys: seq<string>, devel: map<string, Package>, factory: map<string, Package>)
    requires Covers(keys, factory)
    requires forall i, j :: 0 <= i < j < |keys| ==> keys[i] != keys[j]
    requires KeyedByName(factory)
    ensures DistinctNames(CollectObsolete(keys, devel, factory))
  {
    if keys != [] {
      var init := keys[..|keys| - 1];
      var last := keys[|keys| - 1];
      CollectObsoleteDistinct(init, devel, factory);
      CollectObsoleteMembers(init, devel, factory);
      var rest := CollectObsolete(init, devel, factory);
      if factory[last].name !in devel {
        forall i | 0 <= i < |rest| ensures rest[i].name != last {
          assert rest[i] in rest;
          var j :| 0 <= j < |init| && rest[i] == factory[init[j]] && rest[i].name !in devel;
          assert init[j] == keys[j];
        }
      }
    }
  }

  /** The membership of `to_update`, stated over the whole dictionary. */
  lemma OutdatedOfWalk(keys: seq<string>, devel: map<string, Package>, factory: map<string, Package>)
    requires devel.Keys == set k | k in keys
    ensures Covers(keys, devel)
    ensures forall p :: p in CollectOutdated(keys, devel, factory) <==> p in Outdated(devel, factory)
  {
    CollectOutdatedMembers(keys, devel, factory);
    forall p | p in Outdated(devel, factory) ensures exists i :: 0 <= i < |keys| && p == devel[keys[i]] && NeedsUpdate(p, factory) {
      var k :| k in devel && NeedsUpdate(devel[k], factory) && p == devel[k];
      var i :| 0 <= i < |keys| && keys[i] == k;
    }
  }

  /** The membership of `to_remove`, stated over the whole dictionary. */
  lemma ObsoleteOfWalk(keys: seq<string>, devel: map<string, Package>, factory: map<string, Package>)
    requires factory.Keys == set k | k in keys
    ensures Covers(keys, factory)
    ensures forall p :: p in CollectObsolete(keys, devel, factory) <==> p in Obsolete(devel, factory)
  {
    CollectObsoleteMembers(keys, devel, factory);
    forall p | p in Obsolete(devel, factory) ensures exists i :: 0 <= i < |keys| && p == factory[keys[i]] && p.name !in devel {
      var k :| k in factory && factory[k].name !in devel && p == factory[k];
      var i :| 0 <= i < |keys| && keys[i] == k;
    }
  }

  /** One more key of the walk adds at most its own package to `to_update`. */
  lemma CollectOutdatedStep(keys: seq<string>, i: nat, devel: map<string, Package>, factory: map<string, Package>)
    requires i < |keys| && devel.Keys == set k | k in keys
    ensures Covers(keys[..i + 1], devel) && Covers(keys[..i], devel)
    ensures var p := devel[keys[i]];
      CollectOutdated(keys[..i + 1], devel, factory) ==
        CollectOutdated(keys[..i], devel, factory) + (if NeedsUpdate(p, factory) then [p] else [])
  {
    assert keys[..i + 1][..i] == keys[..i];
  }

  /** One more key of the walk adds at most its own package to `to_remove`. */
  lemma CollectObsoleteStep(keys: seq<string>, i: nat, devel: map<string, Package>, factory: map<string, Package>)
    requires i < |keys| && factory.Keys == set k | k in keys
    ensures Covers(keys[..i + 1], factory) && Covers(keys[..i], factory)
    ensures var p := factory[keys[i]];
      CollectObsolete(keys[..i + 1], devel, factory) ==
        CollectObsolete(keys[..i], devel, factory) + (if p.name !in devel then [p] else [])
  {
    assert keys[..i + 1][..i] == keys[..i];
  }

  /** The loop that fills `to_update`: every devel package that Factory lacks or holds with another checksum. */
  method FindOutdated(devel: PackageDictionary, factory: PackageDictionary) returns (toUpdate: seq<Package>)
    requires devel.Valid() && factory.Valid()
    ensures forall p :: p in toUpdate <==> p in Outdated(devel.entries, factory.entries)
    ensures DistinctNames(toUpdate)
  {
    var keys, entries, other := devel.keys, devel.entries, factory.entries;
    toUpdate := [];
    var i := 0;
    while i < |keys|
      invariant 0 <= i <= |keys|
      invariant Covers(keys[..i], entries)
      invariant toUpdate == CollectOutdated(keys[..i], entries, other)
    {
      CollectOutdatedStep(keys, i, entries, other);
      var package := entries[keys[i]];
      if NeedsUpdate(package, other) {
        toUpdate := toUpdate + [package];
      }
      i := i + 1;
    }
    assert keys[..i] == keys;
    OutdatedOfWalk(keys, entries, other);
    CollectOutdatedDistinct(keys, entries, other);
  }

  /** The loop that fills `to_remove`: every Factory package whose name no devel project lists. */
  method FindObsolete(devel: PackageDictionary, factory: PackageDictionary) returns (toRemove: seq<Package>)
    requires devel.Valid() && factory.Valid()
    ensures forall p :: p in toRemove <==> p in Obsolete(devel.entries, factory.entries)
    ensures DistinctNames(toRemove)
  {
    var keys, entries, other := factory.keys, factory.entries, devel.entries;
    toRemove := [];
    var i := 0;
    while i < |keys|
      invariant 0 <= i <= |keys|
      invariant Covers(keys[..i], entries)
      invariant toRemove == CollectObsolete(keys[..i], other, entries)
    {
      CollectObsoleteStep(keys, i, other, entries);
      var package := entries[keys[i]];
      if package.name !in other {
        toRemove := toRemove + [package];
      }
      i := i + 1;
    }
    assert keys[..i] == keys;
    ObsoleteOfWalk(keys, other, entries);
    CollectObsoleteDistinct(keys, other, entries);
  }

  /** Nothing needs updating exactly when Factory holds every devel name with the same checksum. */
  lemma NothingOutdated(devel: map<string, Package>, factory: map<string, Package>)
    requires KeyedByName(devel)
    ensures Outdated(devel, factory) == {} <==>
      forall k :: k in devel ==> k in factory && factory[k].srcMd5 == devel[k].srcMd5
  {
    if Outdated(devel, factory) == {} {
      forall k | k in devel ensures k in factory && factory[k].srcMd5 == devel[k].srcMd5 {
        assert devel[k] !in Outdated(devel, factory);
      }
    } else {
      var p :| p in Outdated(devel, factory);
      var k :| k in devel && NeedsUpdate(devel[k], factory) && p == devel[k];
    }
  }

  /** Nothing is obsolete exactly when every Factory name is a devel name. */
  lemma NothingObsolete(devel: map<string, Package>, factory: map<string, Package>)
    requires KeyedByName(factory)
    ensures Obsolete(devel, factory) == {} <==> factory.Keys <= devel.Keys
  {
    if Obsolete(devel, factory) == {} {
      forall k | k in factory ensures k in devel {
        assert factory[k] !in Obsolete(devel, factory);
      }
    } else {
      var p :| p in Obsolete(devel, factory);
      var k :| k in factory && factory[k].name !in devel && p == factory[k];
    }
  }

  /**
   * The "up-to-date" verdict: both lists are empty exactly when the two
   * snapshots hold the same names, each with the same checksum.
   */
  lemma UpToDateIff(devel: map<string, Package>, factory: map<string, Package>)
    requires KeyedByName(devel) && KeyedByName(factory)
    ensures (Outdated(devel, factory) == {} && Obsolete(devel, factory) == {}) <==>
      && devel.Keys == factory.Keys
      && (forall k :: k in devel ==> factory[k].srcMd5 == devel[k].srcMd5)
  {
    NothingOutdated(devel, factory);
    NothingObsolete(devel, factory);
  }

  /**
   * Devel holds a (checksum h1) and b (h2), Factory holds a (h1) and c (h3):
   * b needs updating and c is obsolete.
   */
  lemma SmallReconciliation(acc: Account)
    ensures var a1 := Package("devel:A", "a", Some("h1"), acc);
            var b2 := Package("devel:B", "b", Some("h2"), acc);
            var a1f := Package("Factory", "a", Some("h1"), acc);
            var c3 := Package("Factory", "c", Some("h3"), acc);
            && Outdated(map["a" := a1, "b" := b2], map["a" := a1f, "c" := c3]) == {b2}
            && Obsolete(map["a" := a1, "b" := b2], map["a" := a1f, "c" := c3]) == {c3}
  {
    var a1 := Package("devel:A", "a", Some("h1"), acc);
    var b2 := Package("devel:B", "b", Some("h2"), acc);
    var a1f := Package("Factory", "a", Some("h1"), acc);
    var c3 := Package("Factory", "c", Some("h3"), acc);
    var devel, factory := map["a" := a1, "b" := b2], map["a" := a1f, "c" := c3];
    assert !NeedsUpdate(a1, factory) && NeedsUpdate(b2, factory);
    assert devel.Keys == {"a", "b"} && factory.Keys == {"a", "c"};
    assert a1 !in Outdated(devel, factory);
    assert b2 in Outdated(devel, factory);
    assert a1f !in Obsolete(devel, factory);
    assert c3 in Obsolete(devel, factory);
  }
}
