/**
 * Selection of a package's current checksum from its revision history:
 * the `srcmd5` of the revision with the greatest `rev` number. Both tools
 * write it as `orderby rev descending ... First()`; LINQ's ordering is
 * stable, so among several entries sharing the greatest number the first
 * one listed wins, and an empty history makes First() throw.
 */
module Revisions {
  import opened BuildService

  /** Entry `i` carries the greatest revision number of the history. */
  predicate IsLatest(history: seq<Revision>, i: int)
  {
    0 <= i < |history| && forall j :: 0 <= j < |history| ==> history[j].rev <= history[i].rev
  }

  /** The position the descending sort brings to the front: the first entry with the greatest number. */
  function LatestIndex(history: seq<Revision>): (k: nat)
    requires history != []
    ensures IsLatest(history, k)
    ensures forall j :: 0 <= j < k ==> history[j].rev < history[k].rev
  {
    if |history| == 1 then 0
    else
      var k := LatestIndex(history[..|history| - 1]);
      if history[k].rev < history[|history| - 1].rev then |history| - 1 else k
  }

  /** GetPackageCurrentRevision's query on a fetched history. */
  function CurrentSrcMd5(history: seq<Revision>): (r: Result<string>)
    ensures r.Err? <==> history == []
    ensures r.Err? ==> r.error == NoRevisions
    ensures r.Ok? ==> exists i :: IsLatest(history, i) && history[i].srcmd5 == r.value
  {
    if history == [] then Err(NoRevisions)
    else Ok(history[LatestIndex(history)].srcmd5)
  }

  /**
   * Entries that share a revision number agree on the checksum. This holds
   * in particular when revision numbers are distinct, as a service history has them.
   */
  predicate Consistent(history: seq<Revision>)
  {
    forall i, j :: 0 <= i < |history| && 0 <= j < |history| && history[i].rev == history[j].rev ==>
      history[i].srcmd5 == history[j].srcmd5
  }

  /** The order in which the service lists the revisions does not matter. */
  lemma PermutationInvariant(a: seq<Revision>, b: seq<Revision>)
    requires multiset(a) == multiset(b)
    requires Consistent(a)
    ensures CurrentSrcMd5(a) == CurrentSrcMd5(b)
  {
    if a == [] {
      assert |b| == |multiset(b)| == 0;
    } else {
      assert |b| == |multiset(b)| == |multiset(a)| > 0;
      var ka, kb := LatestIndex(a), LatestIndex(b);
      assert a[ka] in multiset(b);
      var i :| 0 <= i < |b| && b[i] == a[ka];
      assert b[kb] in multiset(a);
      var j :| 0 <= j < |a| && a[j] == b[kb];
      assert a[j].rev == a[ka].rev;
    }
  }

  /** Whatever is returned is the checksum of one of the listed revisions. */
  lemma ResultIsListed(history: seq<Revision>)
    requires CurrentSrcMd5(history).Ok?
    ensures exists r :: r in history && r.srcmd5 == CurrentSrcMd5(history).value
  {
    var k := LatestIndex(history);
    assert history[k] in history;
  }

  /** When revision numbers are distinct, the result is the checksum of the one latest entry. */
  lemma UniqueLatest(history: seq<Revision>, i: int)
    requires forall a, b :: 0 <= a < b < |history| ==> history[a].rev != history[b].rev
    requires IsLatest(history, i)
    ensures CurrentSrcMd5(history) == Ok(history[i].srcmd5)
  {
    var k := LatestIndex(history);
  }

  /** The greatest number wins, not the last listed entry. */
  lemma GreatestNumberWins()
    ensures CurrentSrcMd5([Revision(1, "aa"), Revision(3, "cc"), Revision(2, "bb")]) == Ok("cc")
  {
    var h := [Revision(1, "aa"), Revision(3, "cc"), Revision(2, "bb")];
    UniqueLatest(h, 1);
  }

  /** With a tie on the greatest number, the entry listed first wins: the order then matters. */
  lemma TieGoesToFirstListed()
    ensures CurrentSrcMd5([Revision(1, "a"), Revision(1, "b")]) == Ok("a")
    ensures CurrentSrcMd5([Revision(1, "b"), Revision(1, "a")]) == Ok("b")
  {
    var h := [Revision(1, "a"), Revision(1, "b")];
    assert h[..1] == [Revision(1, "a")];
    var g := [Revision(1, "b"), Revision(1, "a")];
    assert g[..1] == [Revision(1, "b")];
  }
}
