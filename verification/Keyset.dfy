/** Following `next` from page to page (app/api/routers/articles.py, app/services/article_service.py
    `_load_page`, app/repositories/article_repo.py `build_list_query`). */
module Keyset {
  import opened Articles

  /** The pages a client collects when page k is drawn from the committed table `tables[k]`. */
  ghost function Walk(tables: seq<Table>, w: Window): (pages: seq<Page>)
    ensures |pages| <= |tables| && (tables != [] ==> pages != [])
  {
    if tables == [] then []
    else
      var page := LoadPage(tables[0], w);
      if page.next.None? then [page]
      else [page] + Walk(tables[1..], w.(after := page.next))
  }

  function Items(pages: seq<Page>): seq<Summary> {
    if pages == [] then [] else pages[0].items + Items(pages[1..])
  }

  predicate Finished(pages: seq<Page>) {
    pages != [] && pages[|pages| - 1].next.None?
  }

  /** `id` is live, in the walk's scope and at position `at` in `t`. */
  predicate Holds(t: Table, w: Window, id: int, at: Position) {
    id in t && Matches(t[id], w) && Position(t[id].created, t[id].id) == at
  }

  // --- one page -------------------------------------------------------------------------------

  /** A page is the descending prefix of the window: everything it leaves out lies past `next`. */
  lemma PageShape(t: Table, w: Window)
    ensures var page := LoadPage(t, w);
      && Descending(page.items)
      && Elements(page.items) <= Matching(t, w)
      && (page.next.None? ==>
            page.items == Sorted(Matching(t, w)) && |Matching(t, w)| <= w.limit)
      && (page.next.Some? ==>
            && |Matching(t, w)| > w.limit
            && |page.items| == w.limit
            && page.items == Sorted(Matching(t, w))[..w.limit]
            && page.next.value == PositionOf(page.items[w.limit - 1]))
  {
    SortedShape(Matching(t, w));
    var rows := Sorted(Matching(t, w));
    var page := LoadPage(t, w);
    if |rows| > w.limit {
      assert page.items == rows[..w.limit];
      forall x | x in page.items ensures x in Elements(rows) {
      }
    }
  }

  lemma ShownOrPast(t: Table, w: Window, x: Summary)
    requires x in Matching(t, w)
    ensures x in LoadPage(t, w).items || (LoadPage(t, w).next.Some? && Past(PositionOf(x), LoadPage(t, w).next))
  {
    SortedShape(Matching(t, w));
    PageShape(t, w);
    var rows := Sorted(Matching(t, w));
    var page := LoadPage(t, w);
    assert x in Elements(rows);
    var i :| 0 <= i < |rows| && rows[i] == x;
    if page.next.Some? {
      if i < w.limit {
        assert page.items[i] == x;
      } else {
        assert Precedes(rows[w.limit - 1], rows[i]);
      }
    }
  }

  // --- a page in columns ------------------------------------------------------------------------

  /** Every summary shown is that of a row which is not deleted, in the author's scope, and strictly
      older than the cursor's (created_at, id). */
  lemma ShownInColumns(t: Table, w: Window, i: nat)
    requires i < |LoadPage(t, w).items|
    ensures var x := LoadPage(t, w).items[i];
      && x.id in t
      && var a := t[x.id];
         && x.author == a.author && x.title == a.title && x.created == a.created && x.updated == a.updated
         && a.deleted == None
         && (w.author == None || w.author == Some(a.author))
         && (w.after == None || a.created < w.after.value.created
             || (a.created == w.after.value.created && x.id < w.after.value.id))
  {
    PageShape(t, w);
    var x := LoadPage(t, w).items[i];
    assert x in Elements(LoadPage(t, w).items);
  }

  /** And every such row is shown, or strictly older than the page's `next`. */
  lemma EligibleIsShown(t: Table, w: Window, id: int)
    requires id in t && t[id].deleted == None && (w.author == None || w.author == Some(t[id].author))
    requires w.after == None || t[id].created < w.after.value.created
        || (t[id].created == w.after.value.created && id < w.after.value.id)
    ensures var page := LoadPage(t, w);
      || (exists i :: 0 <= i < |page.items| && page.items[i].id == id)
      || (page.next.Some?
          && (t[id].created < page.next.value.created
              || (t[id].created == page.next.value.created && id < page.next.value.id)))
  {
    var x := Summarize(t[id]);
    assert x in Matching(t, w);
    ShownOrPast(t, w, x);
  }

  /** Newest first; at most `limit` rows; `next` is the position of the last of a full page, and is there
      exactly when some row of the window is older. */
  lemma PageInColumns(t: Table, w: Window)
    ensures var page := LoadPage(t, w);
      && |page.items| <= w.limit
      && (forall i, j :: 0 <= i < j < |page.items| ==>
            || page.items[i].created > page.items[j].created
            || (page.items[i].created == page.items[j].created && page.items[i].id > page.items[j].id))
      && (page.next.Some? ==>
            && |page.items| == w.limit
            && page.next.value.created == page.items[w.limit - 1].created
            && page.next.value.id == page.items[w.limit - 1].id
            && exists id :: id in t && t[id].deleted == None && (w.author == None || w.author == Some(t[id].author))
                         && (t[id].created < page.next.value.created
                             || (t[id].created == page.next.value.created && id < page.next.value.id)))
  {
    PageShape(t, w);
    var page := LoadPage(t, w);
    assert forall i, j :: 0 <= i < j < |page.items| ==> Precedes(page.items[i], page.items[j]);
    if page.next.Some? {
      SortedShape(Matching(t, w));
      var rows := Sorted(Matching(t, w));
      var x := rows[w.limit];
      assert x in Elements(rows) && Precedes(rows[w.limit - 1], x);
      assert x.id in t && x == Summarize(t[x.id]);
    }
  }

  lemma RestIsPast(t: Table, w: Window, i: nat)
    requires LoadPage(t, w).next.Some?
    requires |Sorted(Matching(t, w))| > i
    ensures Past(PositionOf(Sorted(Matching(t, w))[i]), LoadPage(t, w).next) <==> i >= w.limit
  {
    SortedShape(Matching(t, w));
    PageShape(t, w);
    var rows := Sorted(Matching(t, w));
    assert i < w.limit - 1 ==> Precedes(rows[i], rows[w.limit - 1]);
    assert i >= w.limit ==> Precedes(rows[w.limit - 1], rows[i]);
  }

  lemma NextMatching(t: Table, w: Window, x: Summary)
    requires LoadPage(t, w).next.Some?
    ensures x in Matching(t, w.(after := LoadPage(t, w).next))
        <==> x in Matching(t, w) && Past(PositionOf(x), LoadPage(t, w).next)
  {
    PageShape(t, w);
    var page := LoadPage(t, w);
    var last := page.items[w.limit - 1];
    assert last in Elements(page.items);
    assert Past(PositionOf(last), w.after);
    if x in Matching(t, w.(after := page.next)) {
      assert x.id in t && x == Summarize(t[x.id]);
      assert Matches(t[x.id], w);
    }
  }

  lemma RestIsInNext(t: Table, w: Window, i: nat)
    requires LoadPage(t, w).next.Some? && w.limit <= i < |Sorted(Matching(t, w))|
    ensures Sorted(Matching(t, w))[i] in Matching(t, w.(after := LoadPage(t, w).next))
  {
    var rows := Sorted(Matching(t, w));
    SortedShape(Matching(t, w));
    assert rows[i] in Elements(rows);
    RestIsPast(t, w, i);
    NextMatching(t, w, rows[i]);
  }

  lemma NextIsInRest(t: Table, w: Window, x: Summary)
    requires LoadPage(t, w).next.Some? && |Sorted(Matching(t, w))| > w.limit
    requires x in Matching(t, w.(after := LoadPage(t, w).next))
    ensures x in Sorted(Matching(t, w))[w.limit..]
  {
    var rows := Sorted(Matching(t, w));
    SortedShape(Matching(t, w));
    NextMatching(t, w, x);
    assert x in Elements(rows);
    var i :| 0 <= i < |rows| && rows[i] == x;
    RestIsPast(t, w, i);
    assert rows[w.limit..][i - w.limit] == x;
  }

  lemma RestIsNext(t: Table, w: Window, x: Summary)
    requires LoadPage(t, w).next.Some? && |Sorted(Matching(t, w))| > w.limit
    ensures x in Sorted(Matching(t, w))[w.limit..] <==> x in Matching(t, w.(after := LoadPage(t, w).next))
  {
    var rest := Sorted(Matching(t, w))[w.limit..];
    if x in rest {
      var i :| 0 <= i < |rest| && rest[i] == x;
      RestIsInNext(t, w, i + w.limit);
    }
    if x in Matching(t, w.(after := LoadPage(t, w).next)) {
      NextIsInRest(t, w, x);
    }
  }

  lemma RestDescends(rows: seq<Summary>, n: nat)
    requires Descending(rows) && n <= |rows|
    ensures Descending(rows[n..])
  {
  }

  /** The rows past `next` are exactly the rest of the window, in the same order. */
  lemma NextWindow(t: Table, w: Window)
    requires LoadPage(t, w).next.Some?
    ensures |Sorted(Matching(t, w))| > w.limit
    ensures Sorted(Matching(t, w.(after := LoadPage(t, w).next))) == Sorted(Matching(t, w))[w.limit..]
  {
    var rows := Sorted(Matching(t, w));
    var w' := w.(after := LoadPage(t, w).next);
    assert Descending(rows) by { SortedShape(Matching(t, w)); }
    RestDescends(rows, w.limit);
    forall x ensures x in Elements(rows[w.limit..]) <==> x in Matching(t, w') {
      RestIsNext(t, w, x);
    }
    SortedIsUnique(rows[w.limit..], Matching(t, w'));
  }

  // --- the walk over a changing table -----------------------------------------------------------

  lemma WalkStep(tables: seq<Table>, w: Window)
    requires tables != []
    ensures var page := LoadPage(tables[0], w);
      && (page.next.None? ==> Walk(tables, w) == [page] && Items(Walk(tables, w)) == page.items)
      && (page.next.Some? ==>
            var pages := Walk(tables[1..], w.(after := page.next));
            Walk(tables, w) == [page] + pages && Items(Walk(tables, w)) == page.items + Items(pages))
  {
    var page := LoadPage(tables[0], w);
    if page.next.None? {
      assert Items([page]) == page.items + Items([]);
    } else {
      assert Walk(tables, w)[1..] == Walk(tables[1..], w.(after := page.next));
    }
  }

  predicate AllPast(items: seq<Summary>, after: Option<Position>) {
    forall i :: 0 <= i < |items| ==> Past(PositionOf(items[i]), after)
  }

  lemma PageIsPast(t: Table, w: Window)
    ensures AllPast(LoadPage(t, w).items, w.after)
  {
    PageShape(t, w);
    var items := LoadPage(t, w).items;
    forall i | 0 <= i < |items| ensures Past(PositionOf(items[i]), w.after) {
      assert items[i] in Elements(items);
    }
  }

  lemma JoinDescending(front: seq<Summary>, back: seq<Summary>)
    requires Descending(front) && Descending(back) && front != []
    requires AllPast(back, Some(PositionOf(front[|front| - 1])))
    ensures Descending(front + back)
  {
    var items := front + back;
    forall i, j | 0 <= i < j < |items| ensures Precedes(items[i], items[j]) {
      if i < |front| <= j {
        assert i == |front| - 1 || Precedes(front[i], front[|front| - 1]);
        assert Past(PositionOf(back[j - |front|]), Some(PositionOf(front[|front| - 1])));
      }
    }
  }

  /** However the table changes between pages, a walk never repeats or reorders a position. */
  lemma {:induction false} WalkDescends(tables: seq<Table>, w: Window)
    ensures Descending(Items(Walk(tables, w))) && AllPast(Items(Walk(tables, w)), w.after)
    decreases |tables|
  {
    if tables != [] {
      var page := LoadPage(tables[0], w);
      PageShape(tables[0], w);
      PageIsPast(tables[0], w);
      WalkStep(tables, w);
      if page.next.Some? {
        var w' := w.(after := page.next);
        var more := Items(Walk(tables[1..], w'));
        WalkDescends(tables[1..], w');
        JoinDescending(page.items, more);
        var last := page.items[w.limit - 1];
        assert Past(PositionOf(last), w.after);
        forall i | 0 <= i < |more| ensures Past(PositionOf(more[i]), w.after) {
          assert Past(PositionOf(more[i]), page.next);
        }
      }
    }
  }

  predicate Shows(items: seq<Summary>, at: Position) {
    exists i :: 0 <= i < |items| && PositionOf(items[i]) == at
  }

  /** `id` stays live, in scope and at position `at` in the first n tables. */
  predicate Stays(tables: seq<Table>, n: nat, w: Window, id: int, at: Position) {
    n <= |tables| && forall k :: 0 <= k < n ==> Holds(tables[k], w, id, at)
  }

  lemma StaysInTail(tables: seq<Table>, n: nat, w: Window, next: Option<Position>, id: int, at: Position)
    requires n > 0 && Stays(tables, n, w, id, at) && Past(at, next)
    ensures Stays(tables[1..], n - 1, w.(after := next), id, at)
  {
    forall k | 0 <= k < n - 1 ensures Holds(tables[1..][k], w.(after := next), id, at) {
      assert Holds(tables[k + 1], w, id, at);
    }
  }

  lemma ShowsInJoin(front: seq<Summary>, back: seq<Summary>, at: Position)
    requires Shows(front, at) || Shows(back, at)
    ensures Shows(front + back, at)
  {
    if Shows(front, at) {
      var i :| 0 <= i < |front| && PositionOf(front[i]) == at;
      assert (front + back)[i] == front[i];
    } else {
      var i :| 0 <= i < |back| && PositionOf(back[i]) == at;
      assert (front + back)[|front| + i] == back[i];
    }
  }

  /** A finished walk has shown every row that stayed live at one position while it lasted. */
  lemma {:induction false} WalkMissesNothing(tables: seq<Table>, w: Window, id: int, at: Position)
    requires Finished(Walk(tables, w))
    requires Stays(tables, |Walk(tables, w)|, w, id, at)
    ensures Shows(Items(Walk(tables, w)), at)
    decreases |tables|
  {
    var page := LoadPage(tables[0], w);
    assert Holds(tables[0], w, id, at);
    var row := Summarize(tables[0][id]);
    ShownOrPast(tables[0], w, row);
    WalkStep(tables, w);
    if page.next.None? {
      assert Shows(page.items, at);
    } else {
      var pages := Walk(tables[1..], w.(after := page.next));
      if row !in page.items {
        StaysInTail(tables, |pages| + 1, w, page.next, id, at);
        assert Finished(pages) by { assert pages[|pages| - 1] == Walk(tables, w)[|pages|]; }
        WalkMissesNothing(tables[1..], w.(after := page.next), id, at);
      }
      ShowsInJoin(page.items, Items(pages), at);
    }
  }

  // --- the walk over a table that stands still ---------------------------------------------------

  /** Number of pages: the window's size over the limit, rounded up, and one for an empty window. */
  predicate PageCount(pages: nat, rows: nat, limit: Limit) {
    && pages >= 1
    && rows <= pages * limit
    && (pages > 1 ==> (pages - 1) * limit < rows)
  }

  lemma PageCountStep(more: nat, rows: nat, limit: Limit)
    requires PageCount(more, rows, limit) && rows > 0
    ensures PageCount(more + 1, rows + limit, limit)
  {
    assert (more + 1) * limit == more * limit + limit;
    assert more > 1 ==> more * limit == (more - 1) * limit + limit;
  }

  predicate NoEmptyPage(pages: seq<Page>) {
    forall k :: 0 <= k < |pages| ==> pages[k].items != []
  }

  predicate Still(tables: seq<Table>, t: Table) {
    forall k :: 0 <= k < |tables| ==> tables[k] == t
  }

  lemma SortedSize(rows: set<Summary>)
    requires Distinct(rows)
    ensures |Sorted(rows)| == |rows|
  {
    SortedShape(rows);
  }

  /** What is left of a still table's window after its first page. */
  lemma StillStep(t: Table, w: Window, w': Window)
    requires LoadPage(t, w).next.Some? && w' == w.(after := LoadPage(t, w).next)
    ensures |Matching(t, w)| == |Matching(t, w')| + w.limit && |Matching(t, w')| > 0
    ensures Sorted(Matching(t, w)) == LoadPage(t, w).items + Sorted(Matching(t, w'))
    ensures LoadPage(t, w).items != []
  {
    var rows, rest := Sorted(Matching(t, w)), Sorted(Matching(t, w'));
    assert |rows| > w.limit && rest == rows[w.limit..] by { NextWindow(t, w); }
    assert LoadPage(t, w).items == rows[..w.limit];
    SortedSize(Matching(t, w));
    SortedSize(Matching(t, w'));
  }

  lemma StillEnd(t: Table, w: Window)
    requires LoadPage(t, w).next.None?
    ensures LoadPage(t, w).items == Sorted(Matching(t, w)) && |Matching(t, w)| <= w.limit
    ensures Matching(t, w) != {} ==> LoadPage(t, w).items != []
  {
    PageShape(t, w);
    SortedShape(Matching(t, w));
  }

  /** Over a fixed table the walk is exactly the sorted window: it ends, its pages concatenate to
      the window in the right number of pages, and only an empty window has an empty page. */
  lemma {:induction false} WalkIsExact(tables: seq<Table>, t: Table, w: Window)
    requires Still(tables, t) && |tables| > |Matching(t, w)|
    ensures var pages := Walk(tables, w);
      && Finished(pages)
      && Items(pages) == Sorted(Matching(t, w))
      && PageCount(|pages|, |Matching(t, w)|, w.limit)
      && (Matching(t, w) != {} ==> NoEmptyPage(pages))
    decreases |tables|
  {
    WalkStep(tables, w);
    var page := LoadPage(t, w);
    assert tables[0] == t;
    if page.next.None? {
      StillEnd(t, w);
    } else {
      var w' := w.(after := page.next);
      StillStep(t, w, w');
      assert Still(tables[1..], t);
      WalkIsExact(tables[1..], t, w');
      PageCountStep(|Walk(tables[1..], w')|, |Matching(t, w')|, w.limit);
    }
  }
}
