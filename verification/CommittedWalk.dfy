/** Following `next` while the service is in use: page k is drawn from the table after some prefix of
    the commits of a run (app/api/routers/articles.py, app/services/article_service.py). */
module CommittedWalk {
  import opened Articles
  import opened Protocol
  import Keyset
  import Coherence
  import ListCache
  import OptimisticWrites

  /** Page k sees the first cuts[k] commits, and no page sees less than the one before. */
  ghost predicate Drawn(log: seq<Commit>, cuts: seq<nat>, tables: seq<Table>) {
    && |cuts| == |tables|
    && (forall k :: 0 <= k < |cuts| ==> cuts[k] <= |log| && tables[k] == Replay(log[..cuts[k]]))
    && forall i, k :: 0 <= i <= k < |cuts| ==> cuts[i] <= cuts[k]
  }

  /** A row that is live at two moments of a run is live, and where it was, at every moment between. */
  lemma LiveBetween(s: State, n: nat, k: nat, m: nat, w: Window, id: int, at: Position)
    requires Reachable(s) && n <= k <= m <= |s.db.log|
    requires Keyset.Holds(Replay(s.db.log[..n]), w, id, at)
    requires id in Replay(s.db.log[..m]) && Live(Replay(s.db.log[..m])[id])
    ensures Keyset.Holds(Replay(s.db.log[..k]), w, id, at)
  {
    Coherence.ReachableInv(s);
    Coherence.IdentityIsStable(s, n, k, id);
    OptimisticWrites.VersionsAdvance(s, k, m, id);
  }

  /** Over every run, whatever is written meanwhile: a finished walk shows each row that is in the
      window when its first page is drawn and still live when its last one is. */
  lemma RunWalkMissesNothing(s: State, cuts: seq<nat>, tables: seq<Table>, w: Window, id: int, at: Position)
    requires Reachable(s) && Drawn(s.db.log, cuts, tables)
    requires Keyset.Finished(Keyset.Walk(tables, w))
    requires tables != [] && Keyset.Holds(tables[0], w, id, at)
    requires var last := tables[|Keyset.Walk(tables, w)| - 1]; id in last && Live(last[id])
    ensures Keyset.Shows(Keyset.Items(Keyset.Walk(tables, w)), at)
  {
    var pages := |Keyset.Walk(tables, w)|;
    forall k | 0 <= k < pages ensures Keyset.Holds(tables[k], w, id, at) {
      LiveBetween(s, cuts[0], cuts[k], cuts[pages - 1], w, id, at);
    }
    Keyset.WalkMissesNothing(tables, w, id, at);
  }

  // --- deletions are never listed -------------------------------------------------------------------

  /** Over every run: once an article's soft delete is committed, no page of the table lists it again,
      whatever the window. */
  lemma DeletedIsNeverListed(s: State, i: nat, n: nat, w: Window, k: nat)
    requires Reachable(s) && i < n <= |s.db.log| && s.db.log[i].row.deleted.Some?
    requires k < |LoadPage(Replay(s.db.log[..n]), w).items|
    ensures LoadPage(Replay(s.db.log[..n]), w).items[k].id != s.db.log[i].row.id
  {
    Keyset.ShownInColumns(Replay(s.db.log[..n]), w, k);
    OptimisticWrites.DeletedForever(s, i, n);
  }

  /** So a list request that begins after a delete moved its counters does not show the article, unless
      it made a stale hit. */
  lemma ReadYourDelete(acts: seq<Action>, j: nat, p: Pid, q: Pid, k: nat)
    requires ListCache.ReadsAfter(acts, j, p, q) && Run(acts[..j]).value.reqs[p].op.Delete?
    requires !ListCache.StaleHit(acts, j, p, q, Run(acts).value.reqs[q].target.window)
    ensures var shown := Run(acts).value.reqs[q].got.value.value;
      && shown.ListPage?
      && (k < |shown.page.items| ==> shown.page.items[k].id != Run(acts[..j]).value.reqs[p].op.id)
  {
    var s, i := Run(acts).value, Run(acts[..j]).value.reqs[p].ix.value;
    ListCache.ReadYourWrites(acts, j, p, q);
    ListCache.IndexStays(acts, j, p);
    Coherence.RunKeepsInv(acts);
    assert Coherence.CommitOk(s, i);
    ListCache.OpStays(acts, j, p);
    assert Reachable(s);
    var r := s.reqs[q];
    if k < |r.got.value.value.page.items| {
      DeletedIsNeverListed(s, i, r.got.value.asOf, r.target.window, k);
    }
  }
}
