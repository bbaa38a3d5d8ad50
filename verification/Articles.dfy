/** The articles table, its write log, and the keyset list query
    (app/models/article.py, app/repositories/article_repo.py,
    app/services/article_service.py `_load_page`).

    Times are microseconds since the epoch, as DATETIME(6) stores them. */
module Articles {

  datatype Option<+T> = None | Some(value: T)

  datatype Article = Article(id: int, author: int, title: string, body: string,
                             created: int, updated: int, deleted: Option<int>)

  /** What a list page shows of a row: SUMMARY_COLUMNS, never the body. */
  datatype Summary = Summary(id: int, author: int, title: string, created: int, updated: int)

  datatype Position = Position(created: int, id: int)

  predicate WellKeyed(t: map<int, Article>) {
    forall id :: id in t ==> t[id].id == id
  }

  /** The articles table: rows under their primary key. */
  type Table = t: map<int, Article> | WellKeyed(t) witness map[]

  /** The router admits `limit >= 1` only (app/api/routers/articles.py:48). */
  type Limit = n: nat | 1 <= n witness 1

  datatype Window = Window(author: Option<int>, limit: Limit, after: Option<Position>)

  datatype Page = Page(items: seq<Summary>, next: Option<Position>)

  predicate Live(a: Article) {
    a.deleted.None?
  }

  function Summarize(a: Article): Summary {
    Summary(a.id, a.author, a.title, a.created, a.updated)
  }

  // --- the keyset order ---------------------------------------------------------------------

  function PositionOf(s: Summary): Position {
    Position(s.created, s.id)
  }

  /** `p` sorts before `q` under ORDER BY created_at DESC, id DESC. */
  predicate Newer(p: Position, q: Position) {
    p.created > q.created || (p.created == q.created && p.id > q.id)
  }

  predicate Precedes(a: Summary, b: Summary) {
    Newer(PositionOf(a), PositionOf(b))
  }

  predicate Past(p: Position, after: Option<Position>) {
    after.Some? ==> Newer(after.value, p)
  }

  /** The WHERE clause of the list query. */
  predicate Matches(a: Article, w: Window) {
    && Live(a)
    && (w.author.Some? ==> a.author == w.author.value)
    && Past(Position(a.created, a.id), w.after)
  }

  ghost function Matching(t: Table, w: Window): set<Summary> {
    set id | id in t && Matches(t[id], w) :: Summarize(t[id])
  }

  ghost predicate Distinct(rows: set<Summary>) {
    forall a, b :: a in rows && b in rows && a.id == b.id ==> a == b
  }

  ghost predicate Descending(rows: seq<Summary>) {
    forall i, j :: 0 <= i < j < |rows| ==> Precedes(rows[i], rows[j])
  }

  // --- ORDER BY as a function of a set --------------------------------------------------------

  ghost predicate IsNewest(m: Summary, rows: set<Summary>) {
    m in rows && forall x :: x in rows ==> x == m || Precedes(m, x)
  }

  lemma {:induction false} NewestExists(rows: set<Summary>)
    requires rows != {} && Distinct(rows)
    ensures exists m :: IsNewest(m, rows)
    decreases |rows|
  {
    var y :| y in rows;
    var rest := rows - {y};
    if rest == {} {
      assert forall x :: x in rows ==> x == y || x in rest;
      assert IsNewest(y, rows);
    } else {
      NewestExists(rest);
      var z :| IsNewest(z, rest);
      assert forall x :: x in rows ==> x == y || x in rest;
      assert y.id != z.id || y == z;
      assert IsNewest(if Precedes(y, z) then y else z, rows);
    }
  }

  ghost function Newest(rows: set<Summary>): (m: Summary)
    requires rows != {} && Distinct(rows)
    ensures IsNewest(m, rows)
  {
    NewestExists(rows);
    var m :| IsNewest(m, rows);
    m
  }

  ghost function Sorted(rows: set<Summary>): seq<Summary>
    requires Distinct(rows)
  {
    if rows == {} then []
    else
      var m := Newest(rows);
      [m] + Sorted(rows - {m})
  }

  ghost function Elements(s: seq<Summary>): set<Summary> {
    set x | x in s
  }

  lemma ElementsCons(x: Summary, s: seq<Summary>)
    ensures Elements([x] + s) == {x} + Elements(s)
  {
  }

  lemma {:induction false} SortedShape(rows: set<Summary>)
    requires Distinct(rows)
    ensures Elements(Sorted(rows)) == rows && |Sorted(rows)| == |rows| && Descending(Sorted(rows))
    decreases |rows|
  {
    if rows != {} {
      var m := Newest(rows);
      var rest := Sorted(rows - {m});
      SortedShape(rows - {m});
      ElementsCons(m, rest);
      forall j | 0 <= j < |rest| ensures Precedes(m, rest[j]) {
        assert rest[j] in Elements(rest);
      }
    }
  }

  lemma HeadIsNewest(s: seq<Summary>)
    requires s != [] && Descending(s) && Distinct(Elements(s))
    ensures s[0] in Elements(s) && Newest(Elements(s)) == s[0]
  {
    var m := Newest(Elements(s));
    var i :| 0 <= i < |s| && s[i] == m;
    assert s[0] in Elements(s);
    assert i == 0 || Precedes(s[0], s[i]);
  }

  lemma TailElements(s: seq<Summary>)
    requires s != [] && Descending(s)
    ensures Elements(s[1..]) == Elements(s) - {s[0]}
  {
    assert s == [s[0]] + s[1..];
    ElementsCons(s[0], s[1..]);
    assert s[0] !in s[1..] by {
      assert forall i :: 1 <= i < |s| ==> Precedes(s[0], s[i]);
    }
  }

  /** A descending sequence is determined by its elements, so the order of a page does not
      depend on how the rows were enumerated. */
  lemma {:induction false} SortedIsUnique(s: seq<Summary>, rows: set<Summary>)
    requires Descending(s) && Distinct(rows) && Elements(s) == rows
    ensures s == Sorted(rows)
    decreases |s|
  {
    if s == [] {
      assert rows == {};
    } else {
      HeadIsNewest(s);
      TailElements(s);
      SortedIsUnique(s[1..], rows - {s[0]});
      assert s == [s[0]] + s[1..];
    }
  }

  // --- the query and the page -----------------------------------------------------------------

  function Take<T>(s: seq<T>, n: nat): seq<T> {
    if |s| <= n then s else s[..n]
  }

  /** SELECT ... WHERE ... ORDER BY ... LIMIT n. */
  ghost function Query(t: Table, w: Window, n: nat): seq<Summary>
  {
    Take(Sorted(Matching(t, w)), n)
  }

  /** One page: `limit + 1` rows fetched, the sentinel row dropped and turned into `next`. */
  ghost function LoadPage(t: Table, w: Window): Page
  {
    var rows := Query(t, w, w.limit + 1);
    if |rows| <= w.limit then Page(rows, None)
    else Page(rows[..w.limit], Some(PositionOf(rows[w.limit - 1])))
  }

  // --- committed writes -----------------------------------------------------------------------

  /** One committed row version. `token` is the optimistic-concurrency token the write carried;
      an insert carries none. `writer` is the request that wrote it. */
  datatype Commit = Commit(writer: nat, token: Option<int>, row: Article)

  function Apply(t: Table, c: Commit): Table {
    t[c.row.id := c.row]
  }

  function Replay(log: seq<Commit>): Table {
    if log == [] then map[] else Apply(Replay(log[..|log| - 1]), log[|log| - 1])
  }

  lemma ReplayAppend(log: seq<Commit>, c: Commit)
    ensures Replay(log + [c]) == Apply(Replay(log), c)
  {
    assert (log + [c])[..|log|] == log;
  }

  /** The full replace under `WHERE id = .. AND updated_at = token AND deleted_at IS NULL`.
      MySQL advances `updated_at` only when a column changes. */
  function UpdatedRow(a: Article, title: string, body: string, stamp: int): Article {
    if a.title == title && a.body == body then a
    else a.(title := title, body := body, updated := stamp)
  }

  function DeletedRow(a: Article, at: int, stamp: int): Article {
    a.(deleted := Some(at), updated := stamp)
  }

  /** An update sets title and body, and `updated_at` if that changes anything; nothing else. */
  lemma UpdateInColumns(a: Article, title: string, body: string, stamp: int)
    ensures var r := UpdatedRow(a, title, body, stamp);
      && r.title == title && r.body == body
      && r.id == a.id && r.author == a.author && r.created == a.created && r.deleted == a.deleted
      && r.updated == if a.title != title || a.body != body then stamp else a.updated
  {
  }

  /** A soft delete sets `deleted_at`, and with it `updated_at`; nothing else. */
  lemma DeleteInColumns(a: Article, at: int, stamp: int)
    ensures var r := DeletedRow(a, at, stamp);
      && r.deleted == Some(at) && r.updated == stamp
      && r.title == a.title && r.body == a.body
      && r.id == a.id && r.author == a.author && r.created == a.created
  {
  }

  /** The precondition both compare-and-set statements carry in their WHERE clause. */
  predicate CasMatches(t: Table, id: int, token: int) {
    id in t && t[id].updated == token && Live(t[id])
  }
}
