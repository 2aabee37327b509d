/**
 * The factory-status run: load the devel projects (every argument but the
 * last) into one snapshot and the Factory project (the last argument) into
 * another, resolve every package's current checksum, and report the devel
 * packages Factory must update and the Factory packages no devel project
 * lists.
 */
module FactoryStatus {
  import opened BuildService
  import opened Snapshots
  import opened Reconcile
  import opened Ordering

  /** What the run reports: the usage line, the up-to-date message, or the two lists. */
  datatype Report = Usage | UpToDate | Changes(toUpdate: seq<Package>, toRemove: seq<Package>)

  /** The report is the one the two resolved snapshots call for. */
  ghost predicate Describes(devel: map<string, Package>, factory: map<string, Package>, report: Report)
  {
    && !report.Usage?
    && (report.UpToDate? <==> Outdated(devel, factory) == {} && Obsolete(devel, factory) == {})
    && (report.Changes? ==>
          && (forall p :: p in report.toUpdate <==> p in Outdated(devel, factory))
          && Sorted(report.toUpdate)
          && DistinctNames(report.toUpdate)
          && (forall p :: p in report.toRemove <==> p in Obsolete(devel, factory))
          && DistinctNames(report.toRemove))
  }

  /** Two reports that both describe the same snapshots list the same packages to update, in the same order. */
  lemma DescribesDeterminesUpdates(devel: map<string, Package>, factory: map<string, Package>, r1: Report, r2: Report)
    requires Describes(devel, factory, r1) && Describes(devel, factory, r2)
    ensures r1.UpToDate? <==> r2.UpToDate?
    ensures r1.Changes? && r2.Changes? ==> r1.toUpdate == r2.toUpdate
  {
    if r1.Changes? && r2.Changes? {
      SameMembersSorted(r1.toUpdate, r2.toUpdate);
    }
  }

  /**
   * The verdict of a run end to end: for loaded and resolvable snapshots, a
   * report that describes them (as Run's report does) is the up-to-date
   * message exactly when the resolved devel and Factory snapshots hold the
   * same names, each with the same checksum.
   */
  lemma UpToDateVerdict(accounts: AccountCollection, remote: Remote, develRefs: seq<string>, factoryRefs: seq<string>,
                        report: Report)
    requires LoadAll(accounts, remote, develRefs).Ok? && LoadAll(accounts, remote, factoryRefs).Ok?
    requires Resolvable(remote, LoadAll(accounts, remote, develRefs).value)
    requires Resolvable(remote, LoadAll(accounts, remote, factoryRefs).value)
    requires Describes(Resolved(remote, LoadAll(accounts, remote, develRefs).value),
                       Resolved(remote, LoadAll(accounts, remote, factoryRefs).value), report)
    ensures var devel := Resolved(remote, LoadAll(accounts, remote, develRefs).value);
      var factory := Resolved(remote, LoadAll(accounts, remote, factoryRefs).value);
      report.UpToDate? <==> devel.Keys == factory.Keys && forall k :: k in devel ==> factory[k].srcMd5 == devel[k].srcMd5
  {
    var d := LoadAll(accounts, remote, develRefs).value;
    var f := LoadAll(accounts, remote, factoryRefs).value;
    LoadAllKeyedByName(accounts, remote, develRefs);
    LoadAllKeyedByName(accounts, remote, factoryRefs);
    ResolvedKeyedByName(remote, d);
    ResolvedKeyedByName(remote, f);
    UpToDateIff(Resolved(remote, d), Resolved(remote, f));
  }

  /** The loop over the devel arguments: LoadPackages on each, into one dictionary that starts empty. */
  method LoadSnapshot(packages: PackageDictionary, accounts: AccountCollection, remote: Remote, refs: seq<string>)
    returns (r: Result<()>)
    requires packages.Valid() && packages.entries == map[]
    modifies packages
    ensures packages.Valid()
    ensures r.Ok? <==> LoadAll(accounts, remote, refs).Ok?
    ensures r.Ok? ==> packages.entries == LoadAll(accounts, remote, refs).value
    ensures r.Err? ==> LoadAll(accounts, remote, refs) == Err(r.error)
  {
    assert refs[..0] == [];
    var i := 0;
    while i < |refs|
      invariant 0 <= i <= |refs|
      invariant packages.Valid()
      invariant LoadAll(accounts, remote, refs[..i]) == Ok(packages.entries)
    {
      LoadAllStep(accounts, remote, refs, i, packages.entries);
      var o := LoadPackages(packages, accounts, remote, refs[i]);
      if o.Err? {
        assert LoadAll(accounts, remote, refs[..i + 1]) == Err(o.error);
        LoadAllStopsAtFailure(accounts, remote, refs, i + 1);
        return o;
      }
      i := i + 1;
    }
    assert refs[..i] == refs;
    return Ok(());
  }

  /**
   * The resolution pass over both dictionaries, devel first. On success
   * the completed count equals the total count taken before the pass.
   */
  method ResolvePass(devel: PackageDictionary, factory: PackageDictionary, remote: Remote) returns (r: Result<nat>)
    requires devel.Valid() && factory.Valid() && devel != factory
    modifies devel, factory
    ensures devel.Valid() && factory.Valid()
    ensures r.Ok? <==> Resolvable(remote, old(devel.entries)) && Resolvable(remote, old(factory.entries))
    ensures r.Ok? ==> devel.entries == Resolved(remote, old(devel.entries))
    ensures r.Ok? ==> factory.entries == Resolved(remote, old(factory.entries))
    ensures r.Ok? ==> r.value == old(devel.Count() + factory.Count())
    ensures r.Err? ==> exists p :: (p in old(devel.entries).Values || p in old(factory.entries).Values) &&
                                   CurrentRevision(remote, p) == Err(r.error)
  {
    var total := devel.Count() + factory.Count();
    var d := ResolveAll(devel, remote, 0);
    if d.Err? {
      return d;
    }
    var f := ResolveAll(factory, remote, d.value);
    if f.Err? {
      return f;
    }
    assert f.value == total;
    return f;
  }

  /** The comparison of the two resolved dictionaries: collect both lists, sort `to_update`, and pick the message. */
  method Compare(devel: PackageDictionary, factory: PackageDictionary) returns (report: Report)
    requires devel.Valid() && factory.Valid()
    ensures Describes(devel.entries, factory.entries, report)
  {
    var outdated := FindOutdated(devel, factory);
    var toUpdate := SortPackages(outdated);
    SortKeepsDistinctNames(outdated);
    assert forall p :: p in toUpdate <==> p in multiset(outdated);
    var toRemove := FindObsolete(devel, factory);
    if |toUpdate| == 0 && |toRemove| == 0 {
      return UpToDate;
    }
    if |toUpdate| > 0 {
      assert toUpdate[0] in toUpdate && toUpdate[0] in outdated;
    } else {
      assert toRemove[0] in toRemove;
    }
    return Changes(toUpdate, toRemove);
  }

  /** Main: the whole run over the command-line arguments. */
  method Run(args: seq<string>, accounts: AccountCollection, remote: Remote) returns (r: Result<Report>)
    ensures |args| < 2 ==> r == Ok(Usage)
    ensures |args| >= 2 ==>
      var devel := LoadAll(accounts, remote, args[..|args| - 1]);
      var factory := LoadAll(accounts, remote, [args[|args| - 1]]);
      && (devel.Err? ==> r == Err(devel.error))
      && (devel.Ok? && factory.Err? ==> r == Err(factory.error))
      && (devel.Ok? && factory.Ok? ==>
            && (r.Ok? <==> Resolvable(remote, devel.value) && Resolvable(remote, factory.value))
            && (r.Err? ==> exists p :: (p in devel.value.Values || p in factory.value.Values) &&
                                       CurrentRevision(remote, p) == Err(r.error))
            && (r.Ok? ==> Describes(Resolved(remote, devel.value), Resolved(remote, factory.value), r.value)))
  {
    if |args| < 2 {
      return Ok(Usage);
    }
    var develPackages := new PackageDictionary();
    var factoryPackages := new PackageDictionary();
    var loaded := LoadSnapshot(develPackages, accounts, remote, args[..|args| - 1]);
    if loaded.Err? {
      return Err(loaded.error);
    }
    var last := args[|args| - 1];
    assert [last][..0] == [];
    loaded := LoadPackages(factoryPackages, accounts, remote, last);
    if loaded.Err? {
      return Err(loaded.error);
    }
    var completed := ResolvePass(develPackages, factoryPackages, remote);
    if completed.Err? {
      return Err(completed.error);
    }
    var report := Compare(develPackages, factoryPackages);
    return Ok(report);
  }
}
