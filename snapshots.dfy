/**
 * Building the two snapshots of a run: the package dictionary that
 * LoadPackages fills from one or more project listings, and the resolution
 * pass that assigns every package its current source checksum.
 */
module Snapshots {
  import opened BuildService
  import opened Routing
  import opened Revisions

  /** Snapshot maps store every package under its own name. */
  predicate KeyedByName(m: map<string, Package>)
  {
    forall k :: k in m ==> m[k].name == k
  }

  /**
   * A Dictionary<string, Package> keyed by package name. `keys` is the
   * order its enumeration visits the entries in: some fixed order, which
   * the model takes to be the order of insertion.
   */
  class PackageDictionary {
    var keys: seq<string>
    var entries: map<string, Package>

    ghost predicate Valid()
      reads this
    {
      && |keys| == |entries|
      && entries.Keys == set k | k in keys
      && (forall i, j :: 0 <= i < j < |keys| ==> keys[i] != keys[j])
      && (forall k :: k in entries ==> entries[k].name == k)
    }

    constructor ()
      ensures Valid() && keys == [] && entries == map[]
    {
      keys := [];
      entries := map[];
    }

    function Count(): nat
      reads this
    {
      |entries|
    }

    /** Dictionary.Add: rejects (throws, in the tool) a key that is already present. */
    method Add(key: string, value: Package) returns (added: bool)
      requires Valid() && value.name == key
      modifies this
      ensures Valid()
      ensures added <==> key !in old(entries)
      ensures added ==> entries == old(entries)[key := value] && keys == old(keys) + [key]
      ensures !added ==> entries == old(entries) && keys == old(keys)
    {
      if key in entries {
        return false;
      }
      entries := entries[key := value];
      keys := keys + [key];
      return true;
    }

    /** The assignment `package.SrcMd5 = ...` on the package stored under `key`. */
    method SetSrcMd5(key: string, md5: string)
      requires Valid() && key in entries
      modifies this
      ensures Valid() && keys == old(keys)
      ensures entries == old(entries)[key := old(entries)[key].(srcMd5 := Some(md5))]
    {
      entries := entries[key := entries[key].(srcMd5 := Some(md5))];
    }
  }

  /** What LoadPackages learns about one reference: the routed project, its account and the listed names. */
  datatype Listing = Listing(project: string, account: Account, names: seq<string>)

  /** Route the reference, look up its account and fetch the project's source listing. */
  function ListProject(accounts: AccountCollection, remote: Remote, reference: string): Result<Listing>
  {
    var route :- RouteReference(reference);
    var account :- LookupAccount(accounts, route.key);
    var doc :- Fetch(remote, account, SourcePath(route.project));
    Ok(Listing(route.project, account, doc.entries))
  }

  /**
   * Listing succeeds exactly when the reference routes, its account is
   * configured and the project's source resource exists; each failure
   * carries the error of the step that failed. A listing is the source
   * document of the routed project under the account its reference selects:
   * the default one for a bare name, the one configured for everything
   * before the last '/' of a URL.
   */
  lemma ListProjectRouting(accounts: AccountCollection, remote: Remote, reference: string)
    ensures var r := ListProject(accounts, remote, reference);
      var route := RouteReference(reference);
      && (r.Ok? <==> && route.Ok?
                     && LookupAccount(accounts, route.value.key).Ok?
                     && (LookupAccount(accounts, route.value.key).value, SourcePath(route.value.project)) in remote.documents)
      && (route.Err? ==> r == Err(MalformedReference(reference)))
      && (route.Ok? && LookupAccount(accounts, route.value.key).Err? ==>
            r == Err(UnknownAccount(route.value.key.api)))
      && (route.Ok? && LookupAccount(accounts, route.value.key).Ok? && r.Err? ==>
            r == Err(FetchFailed(LookupAccount(accounts, route.value.key).value, SourcePath(route.value.project))))
    ensures var r := ListProject(accounts, remote, reference);
      r.Ok? ==>
        var l := r.value;
        && (l.account, SourcePath(l.project)) in remote.documents
        && l.names == remote.documents[(l.account, SourcePath(l.project))].entries
        && (!IsUrl(reference) ==> l.account == accounts.defaultAccount && l.project == reference)
        && (IsUrl(reference) ==>
              && '/' !in l.project
              && exists api :: api in accounts.byApi && l.account == accounts.byApi[api] && api + "/" + l.project == reference)
  {
  }

  /** Every listed name can be added: none is a key already and none is listed twice. */
  predicate Insertable(keys: set<string>, names: seq<string>)
  {
    && (forall i :: 0 <= i < |names| ==> names[i] !in keys)
    && (forall i, j :: 0 <= i < j < |names| ==> names[i] != names[j])
  }

  /** A list of names can be added when its first can, and the rest can be added after it. */
  lemma InsertableCons(keys: set<string>, names: seq<string>)
    requires names != []
    ensures Insertable(keys, names) <==> names[0] !in keys && Insertable(keys + {names[0]}, names[1..])
  {
    if names[0] !in keys && Insertable(keys + {names[0]}, names[1..]) {
      forall i, j | 0 <= i < j < |names| ensures names[i] != names[j] {
        assert names[j] == names[1..][j - 1];
        if i > 0 {
          assert names[i] == names[1..][i - 1];
        }
      }
    }
    if Insertable(keys, names) {
      forall i | 0 <= i < |names[1..]| ensures names[1..][i] !in keys + {names[0]} {
        assert names[1..][i] == names[i + 1];
      }
    }
  }

  /** The packages one listing adds: its project and account, no checksum yet. */
  function NewPackages(listing: Listing): map<string, Package>
  {
    map n | n in listing.names :: Package(listing.project, n, None, listing.account)
  }

  /**
   * The loop of LoadPackages from position `i` on: Dictionary.Add of one
   * new package per listed name, in order, until a name already present
   * makes it throw.
   */
  function AddFrom(entries: map<string, Package>, listing: Listing, i: nat): Result<map<string, Package>>
    requires i <= |listing.names|
    decreases |listing.names| - i
  {
    if i == |listing.names| then Ok(entries)
    else
      var n := listing.names[i];
      if n in entries then Err(DuplicatePackage(n))
      else AddFrom(entries[n := Package(listing.project, n, None, listing.account)], listing, i + 1)
  }

  /** The listing with only its names from position `i` on. */
  function Suffix(listing: Listing, i: nat): Listing
    requires i <= |listing.names|
  {
    Listing(listing.project, listing.account, listing.names[i..])
  }

  /**
   * Adding the names from position `i` on succeeds exactly when they are
   * insertable, and then gives the union with their new packages; a failure
   * names one of them.
   */
  lemma {:induction false} AddFromSpec(entries: map<string, Package>, listing: Listing, i: nat)
    requires i <= |listing.names|
    ensures var r := AddFrom(entries, listing, i);
      && (r.Ok? <==> Insertable(entries.Keys, listing.names[i..]))
      && (r.Err? ==> exists j :: i <= j < |listing.names| && r.error == DuplicatePackage(listing.names[j]))
      && (r.Ok? ==> r.value == entries + NewPackages(Suffix(listing, i)))
    decreases |listing.names| - i
  {
    var names := listing.names;
    if i < |names| {
      var n := names[i];
      InsertableCons(entries.Keys, names[i..]);
      assert names[i..][1..] == names[i + 1..];
      if n !in entries {
        var p := Package(listing.project, n, None, listing.account);
        AddFromSpec(entries[n := p], listing, i + 1);
        assert entries[n := p].Keys == entries.Keys + {n};
        NewPackagesCons(listing, i);
        UpdateThenUnion(entries, NewPackages(Suffix(listing, i + 1)), n, p);
      }
    }
  }

  lemma NewPackagesCons(listing: Listing, i: nat)
    requires i < |listing.names|
    ensures var n := listing.names[i];
      NewPackages(Suffix(listing, i)) == NewPackages(Suffix(listing, i + 1))[n := Package(listing.project, n, None, listing.account)]
  {
    assert listing.names[i..] == [listing.names[i]] + listing.names[i + 1..];
  }

  /** Updating before or after a union agrees when the update does not contradict the right operand. */
  lemma UpdateThenUnion<K, V>(m: map<K, V>, n: map<K, V>, k: K, v: V)
    requires k in n ==> n[k] == v
    ensures m[k := v] + n == m + n[k := v]
  {
  }

  /**
   * The effect of LoadPackages on a dictionary holding `entries`: a failure
   * of routing or fetching, or the outcome of adding the listed names.
   */
  function LoadStep(entries: map<string, Package>, accounts: AccountCollection, remote: Remote, reference: string)
    : Result<map<string, Package>>
  {
    var listing :- ListProject(accounts, remote, reference);
    AddFrom(entries, listing, 0)
  }

  /**
   * LoadPackages fails exactly when the listing fails or a listed name is
   * already a key or listed twice; otherwise it adds one unresolved package
   * per listed name, with the listing's project and account, and leaves the
   * existing entries untouched.
   */
  lemma LoadStepSpec(entries: map<string, Package>, accounts: AccountCollection, remote: Remote, reference: string)
    ensures var r := LoadStep(entries, accounts, remote, reference);
      && (ListProject(accounts, remote, reference).Err? ==> r == Err(ListProject(accounts, remote, reference).error))
      && (ListProject(accounts, remote, reference).Ok? ==>
            var listing := ListProject(accounts, remote, reference).value;
            && (r.Ok? <==> Insertable(entries.Keys, listing.names))
            && (r.Err? ==> exists n :: n in listing.names && r.error == DuplicatePackage(n))
            && (r.Ok? ==> r.value.Keys == entries.Keys + set n | n in listing.names)
            && (r.Ok? ==> forall k :: k in entries ==> r.value[k] == entries[k])
            && (r.Ok? ==> forall n :: n in listing.names ==> r.value[n] == Package(listing.project, n, None, listing.account)))
  {
    var listing := ListProject(accounts, remote, reference);
    if listing.Ok? {
      var l := listing.value;
      AddFromSpec(entries, l, 0);
      assert l.names[0..] == l.names;
      assert Suffix(l, 0) == l;
      var r := AddFrom(entries, l, 0);
      if r.Err? {
        var j :| 0 <= j < |l.names| && r.error == DuplicatePackage(l.names[j]);
        assert l.names[j] in l.names;
      }
    }
  }

  /** The dictionary after LoadPackages has run on each reference in turn, starting empty. */
  function LoadAll(accounts: AccountCollection, remote: Remote, refs: seq<string>): Result<map<string, Package>>
  {
    if refs == [] then Ok(map[])
    else
      var entries :- LoadAll(accounts, remote, refs[..|refs| - 1]);
      LoadStep(entries, accounts, remote, refs[|refs| - 1])
  }

  /** Loading one more reference continues from the dictionary the earlier ones produced. */
  lemma LoadAllStep(accounts: AccountCollection, remote: Remote, refs: seq<string>, i: nat, entries: map<string, Package>)
    requires i < |refs|
    requires LoadAll(accounts, remote, refs[..i]) == Ok(entries)
    ensures LoadAll(accounts, remote, refs[..i + 1]) == LoadStep(entries, accounts, remote, refs[i])
  {
    assert refs[..i + 1][..i] == refs[..i];
  }

  /** Once a reference fails, the run stops: later references change nothing. */
  lemma {:induction false} LoadAllStopsAtFailure(accounts: AccountCollection, remote: Remote, refs: seq<string>, i: nat)
    requires i <= |refs|
    requires LoadAll(accounts, remote, refs[..i]).Err?
    ensures LoadAll(accounts, remote, refs) == LoadAll(accounts, remote, refs[..i])
  {
    if i < |refs| {
      var init := refs[..|refs| - 1];
      assert init[..i] == refs[..i];
      LoadAllStopsAtFailure(accounts, remote, init, i);
    } else {
      assert refs[..i] == refs;
    }
  }

  /** A merged snapshot maps each name to an unresolved package of that name. */
  lemma {:induction false} LoadAllKeyedByName(accounts: AccountCollection, remote: Remote, refs: seq<string>)
    requires LoadAll(accounts, remote, refs).Ok?
    ensures KeyedByName(LoadAll(accounts, remote, refs).value)
    ensures forall k :: k in LoadAll(accounts, remote, refs).value ==> LoadAll(accounts, remote, refs).value[k].srcMd5 == None
  {
    if refs != [] {
      LoadAllKeyedByName(accounts, remote, refs[..|refs| - 1]);
      LoadStepSpec(LoadAll(accounts, remote, refs[..|refs| - 1]).value, accounts, remote, refs[|refs| - 1]);
    }
  }

  /** Two merged projects that list the same name make the load fail on that name. */
  lemma DuplicateAcrossProjects(account: Account)
    ensures LoadAll(AccountCollection(account, map[]),
                    Remote(map[(account, "/source/P1") := Document(["x", "y"], []),
                               (account, "/source/P2") := Document(["x"], [])]),
                    ["P1", "P2"])
         == Err(DuplicatePackage("x"))
  {
    var accounts := AccountCollection(account, map[]);
    var remote := Remote(map[(account, "/source/P1") := Document(["x", "y"], []),
                             (account, "/source/P2") := Document(["x"], [])]);
    assert !IsUrl("P1") && !IsUrl("P2");
    assert SourcePath("P1") == "/source/P1" && SourcePath("P2") == "/source/P2";
    assert ["P1", "P2"][..1] == ["P1"] && ["P1"][..0] == [];
    var l1, l2 := Listing("P1", account, ["x", "y"]), Listing("P2", account, ["x"]);
    assert ListProject(accounts, remote, "P1") == Ok(l1);
    assert ListProject(accounts, remote, "P2") == Ok(l2);
    var empty: map<string, Package> := map[];
    var x := Package("P1", "x", None, account);
    var y := Package("P1", "y", None, account);
    assert AddFrom(empty["x" := x]["y" := y], l1, 2) == Ok(empty["x" := x]["y" := y]);
    assert AddFrom(empty, l1, 0) == Ok(empty["x" := x]["y" := y]);
    assert LoadAll(accounts, remote, []) == Ok(empty);
    assert LoadAll(accounts, remote, ["P1"]) == Ok(empty["x" := x]["y" := y]);
  }

  /** LoadPackages: add one new package per listed name to the dictionary, or fail. */
  method LoadPackages(packages: PackageDictionary, accounts: AccountCollection, remote: Remote, reference: string)
    returns (r: Result<()>)
    requires packages.Valid()
    modifies packages
    ensures packages.Valid()
    ensures LoadStep(old(packages.entries), accounts, remote, reference).Err? ==>
      r == Err(LoadStep(old(packages.entries), accounts, remote, reference).error)
    ensures LoadStep(old(packages.entries), accounts, remote, reference).Ok? ==>
      && r == Ok(())
      && packages.entries == LoadStep(old(packages.entries), accounts, remote, reference).value
  {
    var listing := ListProject(accounts, remote, reference);
    if listing.Err? {
      return Err(listing.error);
    }
    r := AddListing(packages, listing.value);
  }

  /** The loop of LoadPackages: Dictionary.Add for each listed name, in order, until one is rejected. */
  method AddListing(packages: PackageDictionary, l: Listing) returns (r: Result<()>)
    requires packages.Valid()
    modifies packages
    ensures packages.Valid()
    ensures AddFrom(old(packages.entries), l, 0).Err? ==> r == Err(AddFrom(old(packages.entries), l, 0).error)
    ensures AddFrom(old(packages.entries), l, 0).Ok? ==> r == Ok(()) && packages.entries == AddFrom(old(packages.entries), l, 0).value
  {
    ghost var start := packages.entries;
    var i := 0;
    while i < |l.names|
      invariant 0 <= i <= |l.names|
      invariant packages.Valid()
      invariant AddFrom(start, l, 0) == AddFrom(packages.entries, l, i)
    {
      var name := l.names[i];
      var added := packages.Add(name, Package(l.project, name, None, l.account));
      if !added {
        return Err(DuplicatePackage(name));
      }
      i := i + 1;
    }
    return Ok(());
  }

  /** GetPackageCurrentRevision: fetch the package's history under its own account and select its current checksum. */
  function CurrentRevision(remote: Remote, p: Package): (r: Result<string>)
    ensures r.Ok? <==> (p.account, HistoryPath(p.project, p.name)) in remote.documents &&
                       remote.documents[(p.account, HistoryPath(p.project, p.name))].revisions != []
  {
    var doc :- Fetch(remote, p.account, HistoryPath(p.project, p.name));
    CurrentSrcMd5(doc.revisions)
  }

  /**
   * The checksum assigned to a package is the one of the latest entry of its
   * own history; a missing history and an empty one are the two failures.
   */
  lemma CurrentRevisionSpec(remote: Remote, p: Package)
    ensures var key := (p.account, HistoryPath(p.project, p.name));
      && (CurrentRevision(remote, p).Ok? ==> exists i :: IsLatest(remote.documents[key].revisions, i)
                                                     && remote.documents[key].revisions[i].srcmd5 == CurrentRevision(remote, p).value)
      && (key !in remote.documents ==> CurrentRevision(remote, p) == Err(FetchFailed(p.account, key.1)))
      && (key in remote.documents && remote.documents[key].revisions == [] ==> CurrentRevision(remote, p) == Err(NoRevisions))
  {
  }

  /** Every package of the snapshot has a history to resolve. */
  predicate Resolvable(remote: Remote, m: map<string, Package>)
  {
    forall k :: k in m ==> CurrentRevision(remote, m[k]).Ok?
  }

  /** The snapshot after the resolution pass: every package carries its current checksum. */
  function Resolved(remote: Remote, m: map<string, Package>): map<string, Package>
    requires Resolvable(remote, m)
  {
    map k | k in m :: m[k].(srcMd5 := Some(CurrentRevision(remote, m[k]).value))
  }

  /** Resolution changes only checksums, so a snapshot keyed by name stays keyed by name. */
  lemma ResolvedKeyedByName(remote: Remote, m: map<string, Package>)
    requires Resolvable(remote, m) && KeyedByName(m)
    ensures Resolved(remote, m).Keys == m.Keys
    ensures KeyedByName(Resolved(remote, m))
  {
  }

  /** The package with its current checksum assigned. */
  function ResolveOne(remote: Remote, p: Package): Package
    requires CurrentRevision(remote, p).Ok?
  {
    p.(srcMd5 := Some(CurrentRevision(remote, p).value))
  }

  /** The state of the resolution pass after the first `i` keys of `keys`. */
  ghost predicate ResolvedUpTo(remote: Remote, start: map<string, Package>, keys: seq<string>, i: nat, entries: map<string, Package>)
    requires i <= |keys|
  {
    && entries.Keys == start.Keys
    && (forall k :: k in start && k !in keys[..i] ==> entries[k] == start[k])
    && (forall k :: k in start && k in keys[..i] ==>
          CurrentRevision(remote, start[k]).Ok? && entries[k] == ResolveOne(remote, start[k]))
  }

  lemma ResolvedUpToStep(remote: Remote, start: map<string, Package>, keys: seq<string>, i: nat,
                         entries: map<string, Package>, md5: string)
    requires i < |keys| && keys[i] in start && keys[i] !in keys[..i]
    requires ResolvedUpTo(remote, start, keys, i, entries)
    requires CurrentRevision(remote, start[keys[i]]) == Ok(md5)
    ensures ResolvedUpTo(remote, start, keys, i + 1, entries[keys[i] := entries[keys[i]].(srcMd5 := Some(md5))])
  {
    var key := keys[i];
    var next := entries[key := entries[key].(srcMd5 := Some(md5))];
    PrefixStep(keys, i);
    assert entries[key] == start[key];
    assert ResolveOne(remote, start[key]) == start[key].(srcMd5 := Some(md5));
    forall k | k in start && k !in keys[..i + 1] ensures next[k] == start[k] {
      assert k != key && k !in keys[..i];
    }
    forall k | k in start && k in keys[..i + 1]
      ensures CurrentRevision(remote, start[k]).Ok? && next[k] == ResolveOne(remote, start[k])
    {
      if k != key {
        assert k in keys[..i];
      }
    }
  }

  /** The first `i + 1` keys are the first `i` and the next one. */
  lemma PrefixStep(keys: seq<string>, i: nat)
    requires i < |keys|
    ensures forall k :: k in keys[..i + 1] <==> k in keys[..i] || k == keys[i]
  {
    assert keys[..i + 1] == keys[..i] + [keys[i]];
  }

  lemma ResolvedUpToAll(remote: Remote, start: map<string, Package>, keys: seq<string>, entries: map<string, Package>)
    requires start.Keys == set k | k in keys
    requires ResolvedUpTo(remote, start, keys, |keys|, entries)
    ensures Resolvable(remote, start) && entries == Resolved(remote, start)
  {
    assert keys[..|keys|] == keys;
  }

  /**
   * One half of the resolution pass: resolve every package of the
   * dictionary in its enumeration order, raising the completed count (and
   * reporting it) once per package. The first failure ends the pass.
   */
  method ResolveAll(packages: PackageDictionary, remote: Remote, completed: nat)
    returns (r: Result<nat>)
    requires packages.Valid()
    modifies packages
    ensures packages.Valid() && packages.keys == old(packages.keys)
    ensures r.Ok? <==> Resolvable(remote, old(packages.entries))
    ensures r.Ok? ==> packages.entries == Resolved(remote, old(packages.entries))
    ensures r.Ok? ==> r.value == completed + |packages.keys|
    ensures r.Err? ==>
      exists k :: k in old(packages.entries) && CurrentRevision(remote, old(packages.entries)[k]) == Err(r.error)
  {
    ghost var start := packages.entries;
    var count := completed;
    var i := 0;
    while i < |packages.keys|
      invariant 0 <= i <= |packages.keys|
      invariant packages.Valid() && packages.keys == old(packages.keys)
      invariant ResolvedUpTo(remote, start, packages.keys, i, packages.entries)
      invariant count == completed + i
    {
      var key := packages.keys[i];
      assert key in start && key !in packages.keys[..i];
      assert packages.entries[key] == start[key];
      var md5 := CurrentRevision(remote, packages.entries[key]);
      if md5.Err? {
        return Err(md5.error);
      }
      ResolvedUpToStep(remote, start, packages.keys, i, packages.entries, md5.value);
      packages.SetSrcMd5(key, md5.value);
      count := count + 1;
      i := i + 1;
    }
    ResolvedUpToAll(remote, start, packages.keys, packages.entries);
    r := Ok(count);
  }
}
