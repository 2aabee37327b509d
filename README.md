# factory-status and tree-status, modelled in Dafny

This project models the two small Open Build Service command-line tools of
obs-sharp:

- **factory-status** (`FactoryStatus.Main`). Its last argument is the
  Factory project and every earlier argument is a devel project. Each
  argument is either a bare project name, served under the default account,
  or an `http:`/`https:` reference. A URL reference is split at its last
  `/` into the API URL, which selects the account, and the project name.
  The tool loads the packages of all devel projects into one dictionary and
  the Factory packages into a second one. It then resolves every package's
  current source checksum: the `srcmd5` of the history entry with the
  greatest `rev`. It reports:
  - the devel packages that Factory lacks or holds with another checksum,
    sorted by project and then by name;
  - the Factory packages that no devel project lists;
  - or the "up-to-date" message when both lists are empty.
- **tree-status** (`TreeStatus.Main`). It prints the current checksum of
  `Moblin:UI/moblin-branding-opensuse`, fetched under the default account,
  by the same greatest-revision rule.

The build service is a value: `BuildService.Remote` maps (account, resource
path) pairs to the documents the service would return. The parsed XML is
modelled only as far as the tools read it: the `entry` names of a source
listing and the (`rev`, `srcmd5`) pairs of a history. Each thrown exception
becomes an `Err` of `BuildService.Error`, and the run stops at the first one:

- a URL reference without `/`: `Substring` would throw;
- an API URL with no configured account;
- a missing resource;
- an empty history: `First()` would throw;
- a package name already in the dictionary: `Dictionary.Add` would throw.

Module layout, one file each:

- `BuildService`: the shared types and the resource paths.
- `Routing`: the reference-routing rule.
- `Revisions`: the greatest-revision selection that both tools share.
- `Snapshots`: the `PackageDictionary` class, `LoadPackages`,
  `GetPackageCurrentRevision` and the resolution pass.
- `Ordering`: the comparer of `to_update` and the sort.
- `Reconcile`: the two collection loops.
- `FactoryStatus`: `Main`.
- `TreeStatus`: the second tool.

Three points of the code's behaviour that the model keeps:

- A URL reference selects its account by everything before its *last* `/`;
  the rest is the project name.
- Among history entries that share the greatest `rev`, the first one listed
  wins, because LINQ's `OrderByDescending` is stable.
- The Factory project goes into its own dictionary. A Factory package may
  therefore share its name with a devel package: that is exactly what the
  comparison looks for.

## Model

| member | source | states |
|---|---|---|
| BuildService.Fetch | BuildService/OpenSuse.BuildService.Tools/FactoryStatus.cs:139 | reference definition of a service request (`ApiRequest.Get`): the document stored under the account and path, or FetchFailed; the lemmas on ListProject and CurrentRevision state what the tools get from it |
| Routing.LastIndexOf | BuildService/OpenSuse.BuildService.Tools/FactoryStatus.cs:134 | the result is -1 or an index holding the character, and no later index holds it |
| Routing.RouteReference | BuildService/OpenSuse.BuildService.Tools/FactoryStatus.cs:132-137 | a non-URL routes to the default account unchanged; routing fails exactly for a URL without '/'; a routed URL is its API part, a '/', and a project name without '/' |
| Routing.LookupAccount | BuildService/OpenSuse.BuildService.Tools/FactoryStatus.cs:132-136 | a bare name gets the default account; a URL's API part gets its configured account, and fails with UnknownAccount exactly when none is configured |
| Routing.RouteThenReference | BuildService/OpenSuse.BuildService.Tools/FactoryStatus.cs:133-135 | every reference that routes is rebuilt exactly from its route, and that route is routable |
| Routing.ReferenceThenRoute | BuildService/OpenSuse.BuildService.Tools/FactoryStatus.cs:133-135 | every routable route is what its own reference routes to (the other half of the round trip) |
| Revisions.LatestIndex | BuildService/OpenSuse.BuildService.Tools/FactoryStatus.cs:155-156 | the chosen entry carries the greatest revision number and every earlier entry a strictly smaller one (the stable descending sort's first element) |
| Revisions.CurrentSrcMd5 | BuildService/OpenSuse.BuildService.Tools/FactoryStatus.cs:153-156 | fails with NoRevisions exactly on an empty history; otherwise returns the checksum of an entry with the greatest revision number |
| Revisions.PermutationInvariant | BuildService/OpenSuse.BuildService.Tools/FactoryStatus.cs:155-156 | the listing order of a history does not change the result when entries sharing a number agree on the checksum |
| Revisions.ResultIsListed | BuildService/OpenSuse.BuildService.Tools/FactoryStatus.cs:156 | the returned checksum is that of a listed revision |
| Revisions.UniqueLatest | BuildService/OpenSuse.BuildService.Tools/FactoryStatus.cs:155-156 | with distinct revision numbers the result is the checksum of the one latest entry |
| Revisions.GreatestNumberWins | BuildService/OpenSuse.BuildService.Tools/FactoryStatus.cs:155 | the greatest number wins over the last listed entry |
| Revisions.TieGoesToFirstListed | BuildService/OpenSuse.BuildService.Tools/FactoryStatus.cs:155-156 | on a tie the first listed entry wins, so order matters only then |
| Snapshots.PackageDictionary.Add | BuildService/OpenSuse.BuildService.Tools/FactoryStatus.cs:143-147 | rejects a key already present and changes nothing then; otherwise stores the value under the key and appends the key to the enumeration order |
| Snapshots.PackageDictionary.SetSrcMd5 | BuildService/OpenSuse.BuildService.Tools/FactoryStatus.cs:77-78 | only the checksum of the package under the key changes; keys and every other entry stay |
| Snapshots.ListProject | BuildService/OpenSuse.BuildService.Tools/FactoryStatus.cs:132-139 | reference definition of the first half of LoadPackages: route, look up the account, fetch the source listing; its meaning is stated by ListProjectRouting |
| Snapshots.ListProjectRouting | BuildService/OpenSuse.BuildService.Tools/FactoryStatus.cs:132-139 | listing succeeds exactly when the reference routes, its account is configured and the project's source resource exists; the failures are MalformedReference, UnknownAccount of the API prefix and FetchFailed of the source path, in that order; a listing is the source document of the routed project under the selected account: the default one for a bare name, for a URL the one configured for the API part, with a project name that holds no '/' (the split at the last '/') |
| Snapshots.AddFrom | BuildService/OpenSuse.BuildService.Tools/FactoryStatus.cs:140-148 | reference definition of the Add loop as a fold that stops at the first name already present; its meaning is stated by AddFromSpec |
| Snapshots.AddFromSpec | BuildService/OpenSuse.BuildService.Tools/FactoryStatus.cs:140-148 | adding the names succeeds exactly when none is a key already and none repeats; a failure names a listed name; success is the union of the old entries with the new packages |
| Snapshots.LoadStep | BuildService/OpenSuse.BuildService.Tools/FactoryStatus.cs:130-149 | reference definition of one LoadPackages call on a dictionary's entries; its meaning is stated by LoadStepSpec |
| Snapshots.LoadStepSpec | BuildService/OpenSuse.BuildService.Tools/FactoryStatus.cs:130-149 | LoadPackages fails as the listing fails, or exactly when a listed name is present or repeated; otherwise it keeps every old entry and adds one unresolved package per listed name with the listing's project and account |
| Snapshots.LoadPackages | BuildService/OpenSuse.BuildService.Tools/FactoryStatus.cs:130-149 | the dictionary method ends in the state LoadStep describes, or fails with its error |
| Snapshots.AddListing | BuildService/OpenSuse.BuildService.Tools/FactoryStatus.cs:140-148 | the Add loop fails with the first rejected name, or leaves exactly the entries of the fold AddFrom |
| Snapshots.LoadAll | BuildService/OpenSuse.BuildService.Tools/FactoryStatus.cs:62-67 | reference definition of the devel loop: LoadStep on each argument in turn from an empty dictionary, stopping at the first failure; its properties are LoadAllStep, LoadAllStopsAtFailure and LoadAllKeyedByName |
| Snapshots.LoadAllStep | BuildService/OpenSuse.BuildService.Tools/FactoryStatus.cs:65-67 | loading one more devel argument continues from the dictionary the earlier ones built |
| Snapshots.LoadAllStopsAtFailure | BuildService/OpenSuse.BuildService.Tools/FactoryStatus.cs:65-67 | once an argument fails, later arguments change nothing: the run ends with that failure |
| Snapshots.LoadAllKeyedByName | BuildService/OpenSuse.BuildService.Tools/FactoryStatus.cs:62-69 | every merged snapshot maps each name to an unresolved package of that name |
| Snapshots.DuplicateAcrossProjects | BuildService/OpenSuse.BuildService.Tools/FactoryStatus.cs:143 | merging P1 = {x, y} and P2 = {x} fails with DuplicatePackage("x") |
| Snapshots.CurrentRevision | BuildService/OpenSuse.BuildService.Tools/FactoryStatus.cs:151-157 | succeeds exactly when the package's own history exists under its own account and is not empty |
| Snapshots.CurrentRevisionSpec | BuildService/OpenSuse.BuildService.Tools/FactoryStatus.cs:151-157 | the checksum is that of a latest entry of the package's own history; a missing history is FetchFailed of that path, an empty one NoRevisions |
| Snapshots.Resolved | BuildService/OpenSuse.BuildService.Tools/FactoryStatus.cs:75-81 | reference definition of a snapshot after the resolution pass: the same keys, each package with its current checksum; ResolveAll and ResolvePass are proved to end in it |
| Snapshots.ResolvedKeyedByName | BuildService/OpenSuse.BuildService.Tools/FactoryStatus.cs:75-81 | the resolution pass keeps the keys and keeps every package under its own name |
| Snapshots.ResolveAll | BuildService/OpenSuse.BuildService.Tools/FactoryStatus.cs:76-80 | succeeds exactly when every package resolves, then every entry holds its current checksum and the count rose by the number of packages; a failure is the error of some package; keys never change |
| Ordering.CompareOrdinal | BuildService/OpenSuse.BuildService.Tools/FactoryStatus.cs:96-97 | the result is -1, 0 or 1; it is the reference definition of `CompareTo`, whose order properties are the three Compare lemmas below |
| Ordering.CompareAntisymmetric | BuildService/OpenSuse.BuildService.Tools/FactoryStatus.cs:96-97 | swapping the operands of the ordinal comparison negates it |
| Ordering.CompareZeroIffEqual | BuildService/OpenSuse.BuildService.Tools/FactoryStatus.cs:96-97 | the ordinal comparison is zero exactly on equal strings |
| Ordering.CompareTransitive | BuildService/OpenSuse.BuildService.Tools/FactoryStatus.cs:96-97 | the ordinal comparison is transitive |
| Ordering.ComparePackages | BuildService/OpenSuse.BuildService.Tools/FactoryStatus.cs:94-97 | reference definition of the comparer handed to List.Sort: project first, then name; its order properties are the three Packages lemmas below |
| Ordering.PackagesAntisymmetric | BuildService/OpenSuse.BuildService.Tools/FactoryStatus.cs:94-97 | the package comparer is antisymmetric |
| Ordering.PackagesZeroIffSameKey | BuildService/OpenSuse.BuildService.Tools/FactoryStatus.cs:94-97 | the comparer calls two packages equal exactly when project and name agree |
| Ordering.PackagesTransitive | BuildService/OpenSuse.BuildService.Tools/FactoryStatus.cs:94-97 | the package comparer is transitive, so it is a valid sort order |
| Ordering.InsertSorted | BuildService/OpenSuse.BuildService.Tools/FactoryStatus.cs:94 | inserting into a sorted list keeps it sorted |
| Ordering.SortPackages | BuildService/OpenSuse.BuildService.Tools/FactoryStatus.cs:94-97 | the sorted list is a permutation of the input, ascending by project and then name |
| Ordering.SortKeepsDistinctNames | BuildService/OpenSuse.BuildService.Tools/FactoryStatus.cs:94-97 | sorting a list with distinct names keeps them distinct |
| Ordering.SortedUnique | BuildService/OpenSuse.BuildService.Tools/FactoryStatus.cs:94-97 | two sorted permutations of a list with distinct names are equal, so the unstable sort's result does not depend on the input order |
| Ordering.SameMembersSorted | BuildService/OpenSuse.BuildService.Tools/FactoryStatus.cs:94-97 | two sorted lists with distinct names and the same members are equal |
| Ordering.ProjectThenName | BuildService/OpenSuse.BuildService.Tools/FactoryStatus.cs:94-97 | project B's package sorts after both packages of project A, and name a before z within A |
| Ordering.ExampleSorted | BuildService/OpenSuse.BuildService.Tools/FactoryStatus.cs:94-97 | (A, a), (A, z), (B, x) is in comparer order |
| Reconcile.NeedsUpdate | BuildService/OpenSuse.BuildService.Tools/FactoryStatus.cs:88-89 | reference definition of the test: Factory lacks the name or holds another checksum |
| Reconcile.Outdated | BuildService/OpenSuse.BuildService.Tools/FactoryStatus.cs:87-92 | reference definition of `to_update` as a set: the devel packages that need updating; FindOutdated is proved to collect exactly it |
| Reconcile.Obsolete | BuildService/OpenSuse.BuildService.Tools/FactoryStatus.cs:100-104 | reference definition of `to_remove` as a set: the Factory packages whose name is not a devel name; FindObsolete is proved to collect exactly it |
| Reconcile.CollectOutdatedMembers | BuildService/OpenSuse.BuildService.Tools/FactoryStatus.cs:87-92 | the walk collects exactly the packages under walked keys that Factory lacks or holds with another checksum |
| Reconcile.CollectObsoleteMembers | BuildService/OpenSuse.BuildService.Tools/FactoryStatus.cs:100-104 | the walk collects exactly the Factory packages under walked keys whose name no devel project lists |
| Reconcile.CollectOutdatedDistinct | BuildService/OpenSuse.BuildService.Tools/FactoryStatus.cs:87-92 | walking distinct keys of a name-keyed snapshot collects no name twice |
| Reconcile.CollectObsoleteDistinct | BuildService/OpenSuse.BuildService.Tools/FactoryStatus.cs:100-104 | walking distinct keys of a name-keyed Factory snapshot collects no name twice |
| Reconcile.FindOutdated | BuildService/OpenSuse.BuildService.Tools/FactoryStatus.cs:86-92 | to_update holds exactly the outdated devel packages, no name twice |
| Reconcile.FindObsolete | BuildService/OpenSuse.BuildService.Tools/FactoryStatus.cs:99-104 | to_remove holds exactly the Factory packages whose name no devel project lists, each once (no name twice) |
| Reconcile.NothingOutdated | BuildService/OpenSuse.BuildService.Tools/FactoryStatus.cs:87-92 | nothing needs updating exactly when Factory holds every devel name with the same checksum |
| Reconcile.NothingObsolete | BuildService/OpenSuse.BuildService.Tools/FactoryStatus.cs:100-104 | nothing is obsolete exactly when every Factory name is a devel name |
| Reconcile.UpToDateIff | BuildService/OpenSuse.BuildService.Tools/FactoryStatus.cs:110-113 | the up-to-date message appears exactly when both snapshots hold the same names with the same checksums |
| Reconcile.SmallReconciliation | BuildService/OpenSuse.BuildService.Tools/FactoryStatus.cs:86-104 | devel {a:h1, b:h2} against Factory {a:h1, c:h3} reports b to update and c to remove |
| FactoryStatus.DescribesDeterminesUpdates | BuildService/OpenSuse.BuildService.Tools/FactoryStatus.cs:94-113 | any two reports of the same snapshots agree on the message and list the packages to update in the same order |
| FactoryStatus.UpToDateVerdict | BuildService/OpenSuse.BuildService.Tools/FactoryStatus.cs:62-113 | for loaded, resolvable snapshots, a report describing them (as Run's does) is the up-to-date message exactly when the resolved devel and Factory snapshots hold the same names with the same checksums |
| FactoryStatus.LoadSnapshot | BuildService/OpenSuse.BuildService.Tools/FactoryStatus.cs:62-67 | the devel dictionary ends as LoadAll of the devel arguments, or the loop fails with LoadAll's error |
| FactoryStatus.ResolvePass | BuildService/OpenSuse.BuildService.Tools/FactoryStatus.cs:71-81 | devel and then Factory resolve; success means both are fully resolved and the completed count equals the total taken before the pass; a failure is some package's error |
| FactoryStatus.Compare | BuildService/OpenSuse.BuildService.Tools/FactoryStatus.cs:83-113 | the report describes the two snapshots: up-to-date exactly when nothing is outdated or obsolete, else the outdated packages sorted with distinct names, and the obsolete ones with distinct names, so each printed count is the number of such packages |
| FactoryStatus.Run | BuildService/OpenSuse.BuildService.Tools/FactoryStatus.cs:52-113 | fewer than two arguments give the usage line; a load failure of the devel or Factory arguments ends the run with that error; the run succeeds exactly when every package resolves and then reports what the resolved snapshots call for |
| TreeStatus.BrandingMd5Sum | BuildService/MoblinTree/TreeStatus.cs:41-49 | succeeds exactly when the branding history exists under the default account and is not empty, then with a latest entry's checksum; a failure is FetchFailed or NoRevisions |
| TreeStatus.SameRuleAsFactoryStatus | BuildService/MoblinTree/TreeStatus.cs:45-49 | the printed checksum is GetPackageCurrentRevision of the branding package under the default account |
| TreeStatus.BrandingIgnoresListingOrder | BuildService/MoblinTree/TreeStatus.cs:47-49 | two services listing the same branding revisions in any order print the same checksum when entries sharing a number agree |

## Left out

- HTTP requests, XML parsing and the `.oscrc` account configuration. They are replaced by the `Remote` and `AccountCollection` values. A missing document stands for every transport or parse failure, as FetchFailed. `OscRcAccountCollection` is not part of this model; its indexer is taken to fail on an unknown API URL (UnknownAccount).
- Console output: the progress line of `UpdateStatus`, with its timing and ETA, and the printed lists. Only the completed count that `UpdateStatus` receives is modelled. The report carries the two lists that would be printed.
- `string.CompareTo` is culture-sensitive. The model compares ordinally, code point by code point (a Dafny `char` is a Unicode scalar value). .NET's ordinal comparison works on UTF-16 code units, so the two orders differ between characters outside the Basic Multilingual Plane and characters from U+E000 to U+FFFF.
- `String.StartsWith(string)` and `String.LastIndexOf(string)` in LoadPackages are culture-sensitive in .NET. `Routing.IsUrl` and `Routing.LastIndexOf` model them ordinally.
- `Dictionary` enumeration order is unspecified in .NET. The model takes it to be insertion order (`PackageDictionary.keys`). The contracts depend on it only through `to_remove`'s order, which they leave open.
- `List.Sort` is in place and unstable. `Ordering.SortPackages` is an insertion sort on values. `Ordering.SortedUnique` shows that any sorted permutation of `to_update` is that same list, because its names are distinct.
- `Package` is a class in the source, mutated in place by the resolution pass. Here it is a datatype value that `PackageDictionary.SetSrcMd5` replaces in the map. No alias is observable: the report lists are built only after resolution.
- Reconcile.FindObsolete: the order of `to_remove` is not stated, only its members and that none repeats. The order is the dictionary's enumeration order, which .NET leaves unspecified.
- Snapshots.CurrentRevision: its own contract states only when it succeeds. What the checksum is, and which error each failure carries, is stated by `Snapshots.CurrentRevisionSpec`.
- Integer widths: revision numbers and counts are unbounded. The source's `int` parse of `rev` and the `int` counters are not modelled for overflow.
