/**
 * The tree-status tool: print the current source checksum of the
 * moblin-branding-opensuse package of the Moblin:UI project, fetched under
 * the default account, by the same rule FactoryStatus uses.
 */
module TreeStatus {
  import opened BuildService
  import opened Revisions
  import opened Snapshots

  /** The one history the tool reads. */
  const BrandingHistory: string := "/source/Moblin:UI/moblin-branding-opensuse/_history"

  /** The checksum the tool prints, or the failure that ends it. */
  function BrandingMd5Sum(accounts: AccountCollection, remote: Remote): (r: Result<string>)
    ensures var key := (accounts.defaultAccount, BrandingHistory);
      && (r.Ok? <==> key in remote.documents && remote.documents[key].revisions != [])
      && (r.Err? ==> r.error == FetchFailed(accounts.defaultAccount, BrandingHistory) || r.error == NoRevisions)
      && (r.Ok? ==> exists i :: IsLatest(remote.documents[key].revisions, i) &&
                               remote.documents[key].revisions[i].srcmd5 == r.value)
  {
    var doc :- Fetch(remote, accounts.defaultAccount, BrandingHistory);
    CurrentSrcMd5(doc.revisions)
  }

  /**
   * It is GetPackageCurrentRevision applied to a package whose history is
   * that resource under the default account: both tools use one rule.
   */
  lemma SameRuleAsFactoryStatus(accounts: AccountCollection, remote: Remote, p: Package)
    requires p.account == accounts.defaultAccount
    requires HistoryPath(p.project, p.name) == BrandingHistory
    ensures BrandingMd5Sum(accounts, remote) == CurrentRevision(remote, p)
  {
  }

  /**
   * Two services whose branding histories list the same revisions in any
   * order print the same checksum, as long as entries sharing a revision
   * number agree on it.
   */
  lemma BrandingIgnoresListingOrder(accounts: AccountCollection, remote1: Remote, remote2: Remote)
    requires var key := (accounts.defaultAccount, BrandingHistory);
      && key in remote1.documents && key in remote2.documents
      && multiset(remote1.documents[key].revisions) == multiset(remote2.documents[key].revisions)
      && Consistent(remote1.documents[key].revisions)
    ensures BrandingMd5Sum(accounts, remote1) == BrandingMd5Sum(accounts, remote2)
  {
    var key := (accounts.defaultAccount, BrandingHistory);
    PermutationInvariant(remote1.documents[key].revisions, remote2.documents[key].revisions);
  }
}
