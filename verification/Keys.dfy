/** Cache keys (app/cache/keys.py). The truncated SHA-256 is a parameter: any function to 16 hex
    digits. Two windows share a page key only if their digests collide. */
module Keys {
  import opened Articles
  import opened Numerals
  import Cursor
  import Protocol

  /** Everything that names a cached page; the position is in microseconds. */
  datatype PageId = PageId(generation: int, author: Option<int>, limit: int, after: Option<Position>)

  function ArticleKey(id: int): string {
    "article:" + Print(id)
  }

  const GENERATION_KEY := "articles:list:gen"

  function AuthorGenerationKey(author: int): string {
    "articles:list:gen:author:" + Print(author)
  }

  function LockKey(key: string): string {
    "lock:" + key
  }

  /** The keyset position of a datetime and an id (`cursor_parts`). */
  function CursorParts(t: int, id: int): Position {
    Position(Cursor.Micros(Cursor.Since(t)), id)
  }

  function WindowTail(after: Option<Position>): string {
    match after case None => "none" case Some(p) => Print(p.created) + [':'] + Print(p.id)
  }

  /** What is digested: every component of the window. */
  function Material(limit: int, after: Option<Position>): string {
    "l" + (Print(limit) + [':'] + WindowTail(after))
  }

  function ListKey(digest: string -> string, p: PageId): string {
    var d := digest(Material(p.limit, p.after));
    match p.author
    case None => "articles:list:g" + (Print(p.generation) + [':'] + ("all:" + d))
    case Some(a) => "articles:list:a" + (Print(a) + [':'] + ("g" + (Print(p.generation) + [':'] + d)))
  }

  // --- material ---------------------------------------------------------------------------------------

  lemma DropPrefix(p: string, x: string, y: string)
    requires p + x == p + y
    ensures x == y
  {
    assert (p + x)[|p|..] == x && (p + y)[|p|..] == y;
  }

  lemma SplitNumber(m: int, n: int, x: string, y: string)
    requires Print(m) + [':'] + x == Print(n) + [':'] + y
    ensures m == n && x == y
  {
    PrintIsFree(m, ':');
    PrintIsFree(n, ':');
    SplitIsUnique(Print(m), Print(n), ':', x, y);
    PrintIsInjective(m, n);
  }

  lemma NoneIsNoPosition(p: Position)
    ensures Print(p.created) + [':'] + Print(p.id) != "none"
  {
    PrintIsNumeral(p.created);
    assert (Print(p.created) + [':'] + Print(p.id))[0] == Print(p.created)[0];
  }

  lemma TailIsInjective(after: Option<Position>, after': Option<Position>)
    requires WindowTail(after) == WindowTail(after')
    ensures after == after'
  {
    if after.Some? { NoneIsNoPosition(after.value); }
    if after'.Some? { NoneIsNoPosition(after'.value); }
    if after.Some? && after'.Some? {
      SplitNumber(after.value.created, after'.value.created, Print(after.value.id), Print(after'.value.id));
      PrintIsInjective(after.value.id, after'.value.id);
    }
  }

  /** Two windows never share their material. */
  lemma MaterialIsInjective(limit: int, after: Option<Position>, limit': int, after': Option<Position>)
    requires Material(limit, after) == Material(limit', after')
    ensures limit == limit' && after == after'
  {
    var x, y := WindowTail(after), WindowTail(after');
    DropPrefix("l", Print(limit) + [':'] + x, Print(limit') + [':'] + y);
    SplitNumber(limit, limit', x, y);
    TailIsInjective(after, after');
  }

  // --- page keys --------------------------------------------------------------------------------------

  /** The character that tells an unfiltered page ('g') from an author's page ('a'). */
  lemma ListKeyShape(digest: string -> string, p: PageId)
    ensures var k := ListKey(digest, p);
      && |k| > 15 && k[..14] == "articles:list:"
      && k[14] == (if p.author.None? then 'g' else 'a')
      && IsNumeral(k[15])
  {
    var k := ListKey(digest, p);
    var n := if p.author.None? then p.generation else p.author.value;
    PrintIsNumeral(n);
    assert k[15] == Print(n)[0];
  }

  /** Page keys coincide exactly when generation and author do and the digests of the windows do. */
  lemma ListKeysCoincide(digest: string -> string, p: PageId, q: PageId)
    ensures ListKey(digest, p) == ListKey(digest, q) <==>
      && p.generation == q.generation && p.author == q.author
      && digest(Material(p.limit, p.after)) == digest(Material(q.limit, q.after))
  {
    if ListKey(digest, p) == ListKey(digest, q) {
      ListKeyShape(digest, p);
      ListKeyShape(digest, q);
      var d, e := digest(Material(p.limit, p.after)), digest(Material(q.limit, q.after));
      if p.author.None? {
        DropPrefix("articles:list:g", Print(p.generation) + [':'] + ("all:" + d),
                   Print(q.generation) + [':'] + ("all:" + e));
        SplitNumber(p.generation, q.generation, "all:" + d, "all:" + e);
        DropPrefix("all:", d, e);
      } else {
        var x, y := Print(p.generation) + [':'] + d, Print(q.generation) + [':'] + e;
        DropPrefix("articles:list:a", Print(p.author.value) + [':'] + ("g" + x),
                   Print(q.author.value) + [':'] + ("g" + y));
        SplitNumber(p.author.value, q.author.value, "g" + x, "g" + y);
        DropPrefix("g", x, y);
        SplitNumber(p.generation, q.generation, d, e);
      }
    }
  }

  /** The digests of two different windows coincide. */
  predicate Collide(digest: string -> string, p: PageId, q: PageId) {
    && digest(Material(p.limit, p.after)) == digest(Material(q.limit, q.after))
    && Material(p.limit, p.after) != Material(q.limit, q.after)
  }

  /** Unless the digest collides on the two windows, distinct pages have distinct keys, whatever the
      generation, the author, the limit or the position (negative microseconds included). */
  lemma ListKeyIsInjective(digest: string -> string, p: PageId, q: PageId)
    requires !Collide(digest, p, q)
    requires ListKey(digest, p) == ListKey(digest, q)
    ensures p == q
  {
    ListKeysCoincide(digest, p, q);
    MaterialIsInjective(p.limit, p.after, q.limit, q.after);
  }

  /** ... and positions are told apart by their microseconds. */
  lemma CursorPartsAreInjective(t: int, id: int, t': int, id': int)
    requires CursorParts(t, id) == CursorParts(t', id')
    ensures t == t' && id == id'
  {
    Cursor.MicrosOfSince(t);
    Cursor.MicrosOfSince(t');
  }

  // --- namespaces -------------------------------------------------------------------------------------

  datatype Space = Bodies | Pages | Counters | Locks | Elsewhere

  /** Which namespace a key lies in, read off its characters. */
  function SpaceOf(k: string): Space {
    if |k| >= 5 && k[..5] == "lock:" then Locks
    else if |k| >= 8 && k[..8] == "article:" then Bodies
    else if |k| >= 16 && k[..14] == "articles:list:" then
      if k[14] == 'g' && k[15] == 'e' then Counters
      else if (k[14] == 'g' || k[14] == 'a') && IsNumeral(k[15]) then Pages
      else Elsewhere
    else Elsewhere
  }

  lemma ArticleKeyIsBody(id: int)
    ensures SpaceOf(ArticleKey(id)) == Bodies
  {
    var k := ArticleKey(id);
    assert k[..8] == "article:" && k[..5][0] == 'a';
  }

  lemma ListKeyIsPage(digest: string -> string, p: PageId)
    ensures SpaceOf(ListKey(digest, p)) == Pages
  {
    ListKeyShape(digest, p);
    var k := ListKey(digest, p);
    assert k[..14][0] == 'a' && k[..14][7] == 's';
    assert k[..8][7] == 's' && k[..5][0] == 'a';
  }

  lemma CounterKeyIsCounter(author: int)
    ensures SpaceOf(GENERATION_KEY) == Counters && SpaceOf(AuthorGenerationKey(author)) == Counters
    ensures GENERATION_KEY != AuthorGenerationKey(author)
  {
    var g := GENERATION_KEY;
    assert g[..14] == "articles:list:" && g[..8][7] == 's' && g[..5][0] == 'a';
    var k := AuthorGenerationKey(author);
    assert k[..14] == "articles:list:" && k[14] == 'g' && k[15] == 'e' && k[..8][7] == 's' && k[..5][0] == 'a';
  }

  /** Bodies, pages, counters and locks never share a key. */
  lemma NamespacesAreDisjoint(digest: string -> string, id: int, p: PageId, author: int, key: string)
    ensures SpaceOf(ArticleKey(id)) == Bodies
    ensures SpaceOf(ListKey(digest, p)) == Pages
    ensures SpaceOf(GENERATION_KEY) == Counters && SpaceOf(AuthorGenerationKey(author)) == Counters
    ensures SpaceOf(LockKey(key)) == Locks
    ensures GENERATION_KEY != AuthorGenerationKey(author)
  {
    ArticleKeyIsBody(id);
    ListKeyIsPage(digest, p);
    CounterKeyIsCounter(author);
    assert LockKey(key)[..5] == "lock:";
  }

  /** Within a namespace, keys are as distinct as what they name. */
  lemma KeysAreInjective(id: int, id': int, key: string, key': string)
    ensures ArticleKey(id) == ArticleKey(id') ==> id == id'
    ensures AuthorGenerationKey(id) == AuthorGenerationKey(id') ==> id == id'
    ensures LockKey(key) == LockKey(key') ==> key == key'
  {
    if ArticleKey(id) == ArticleKey(id') {
      DropPrefix("article:", Print(id), Print(id'));
      PrintIsInjective(id, id');
    }
    if AuthorGenerationKey(id) == AuthorGenerationKey(id') {
      DropPrefix("articles:list:gen:author:", Print(id), Print(id'));
      PrintIsInjective(id, id');
    }
    if LockKey(key) == LockKey(key') {
      DropPrefix("lock:", key, key');
    }
  }

  // --- the keys of the protocol -----------------------------------------------------------------------

  function PageIdOf(gen: nat, w: Window): PageId {
    PageId(gen, w.author, w.limit,
           match w.after case None => None case Some(p) => Some(CursorParts(p.created, p.id)))
  }

  /** The Redis key of a body or a page. */
  function KeyText(digest: string -> string, k: Protocol.Key): string {
    match k
    case BodyKey(id) => ArticleKey(id)
    case PageKey(gen, w) => ListKey(digest, PageIdOf(gen, w))
  }

  /** The protocol may treat keys as structured values: unless the digest collides, distinct bodies
      and pages live under distinct Redis keys, and so do their locks. */
  lemma KeyTextIsInjective(digest: string -> string, k: Protocol.Key, l: Protocol.Key)
    requires k.PageKey? && l.PageKey? ==> !Collide(digest, PageIdOf(k.gen, k.window), PageIdOf(l.gen, l.window))
    requires KeyText(digest, k) == KeyText(digest, l) || LockKey(KeyText(digest, k)) == LockKey(KeyText(digest, l))
    ensures k == l
  {
    KeysAreInjective(0, 0, KeyText(digest, k), KeyText(digest, l));
    if k.BodyKey? { ArticleKeyIsBody(k.id); } else { ListKeyIsPage(digest, PageIdOf(k.gen, k.window)); }
    if l.BodyKey? { ArticleKeyIsBody(l.id); } else { ListKeyIsPage(digest, PageIdOf(l.gen, l.window)); }
    if k.BodyKey? && l.BodyKey? {
      KeysAreInjective(k.id, l.id, "", "");
    }
    if k.PageKey? && l.PageKey? {
      ListKeyIsInjective(digest, PageIdOf(k.gen, k.window), PageIdOf(l.gen, l.window));
      if k.window.after.Some? && l.window.after.Some? {
        var a, b := k.window.after.value, l.window.after.value;
        CursorPartsAreInjective(a.created, a.id, b.created, b.id);
      }
    }
  }

  // --- the keys themselves ----------------------------------------------------------------------------

  lemma NumbersInFull()
    ensures Print(3) == "3" && Print(7) == "7" && Print(9) == "9"
    ensures Print(15) == "15" && Print(20) == "20" && Print(42) == "42"
  {
    Notation(1, 5);
    Notation(2, 0);
    Notation(4, 2);
    Notation(1, 3);
    Notation(1, 7);
    Notation(1, 9);
    Notation(3, 1);
    Notation(3, 2);
    Notation(3, 4);
  }

  /** The keys of article 42, of its lock, of the global counter and of author 7's. */
  lemma PlainKeysInFull()
    ensures ArticleKey(42) == "article:42" && LockKey("article:42") == "lock:article:42"
    ensures GENERATION_KEY == "articles:list:gen" && AuthorGenerationKey(7) == "articles:list:gen:author:7"
  {
    NumbersInFull();
  }

  /** The key of the first page of twenty under generation 3. */
  lemma FirstPageKey(digest: string -> string)
    ensures ListKey(digest, PageId(3, None, 20, None)) == "articles:list:g3:all:" + digest("l20:none")
  {
    NumbersInFull();
    assert Material(20, None) == "l20:none";
    var d := digest("l20:none");
    assert "articles:list:g" + ("3" + [':'] + ("all:" + d)) == "articles:list:g3:all:" + d;
  }

  lemma LaterMaterial()
    ensures Material(20, Some(Position(15, 9))) == "l20:15:9"
  {
    NumbersInFull();
    assert WindowTail(Some(Position(15, 9))) == "15:9";
    assert "l" + ("20" + [':'] + "15:9") == "l20:15:9";
  }

  /** The key of author 7's page after position (15, 9), under generation 3. */
  lemma LaterPageKey(digest: string -> string)
    ensures ListKey(digest, PageId(3, Some(7), 20, Some(Position(15, 9))))
         == "articles:list:a7:g3:" + digest("l20:15:9")
  {
    NumbersInFull();
    LaterMaterial();
    var d := digest("l20:15:9");
    assert "articles:list:a" + ("7" + [':'] + ("g" + ("3" + [':'] + d))) == "articles:list:a7:g3:" + d;
  }
}
