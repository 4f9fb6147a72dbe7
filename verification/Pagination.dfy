/** Keyset pagination: a walk over a table by pages, each starting beyond the last row of the one before. */
module Pagination {
  import opened Options

  type Row = map<string, int>

  /** What a cursor carries, once its text has been decoded. */
  type Payload = map<string, int>

  datatype Direction = Asc | Desc

  datatype Key = Key(sort: int, id: int)

  datatype Clause = Everything | Beyond(key: Key)

  datatype Page = Page(data: seq<Row>, nextCursor: Option<Payload>, hasNextPage: bool)

  predicate HasKey(row: Row, col: string) {
    col in row && "id" in row
  }

  function KeyOf(row: Row, col: string): Key
    requires HasKey(row, col)
  {
    Key(row[col], row["id"])
  }

  /** The order of the pages: by sort value, then by id, both in the page's direction. */
  predicate Before(dir: Direction, a: Key, b: Key) {
    match dir
    case Asc => a.sort < b.sort || (a.sort == b.sort && a.id < b.id)
    case Desc => b.sort < a.sort || (a.sort == b.sort && b.id < a.id)
  }

  /** `None` where the program throws on a row without the fields. */
  function CreateCursor(row: Row, col: string): Option<Payload> {
    if HasKey(row, col) then Some(map[col := row[col], "id" := row["id"]]) else None
  }

  /** `None` for a cursor without the fields, which is answered 400. */
  function BuildCursorWhere(cursor: Option<Payload>, col: string): Option<Clause> {
    match cursor
    case None => Some(Everything)
    case Some(payload) =>
      if col in payload && "id" in payload then Some(Beyond(Key(payload[col], payload["id"]))) else None
  }

  predicate Passes(clause: Clause, dir: Direction, key: Key) {
    clause.Everything? || Before(dir, clause.key, key)
  }

  /** Wraps the rows fetched, one more than the page holds if there are that many. */
  function Paginate(rows: seq<Row>, limit: nat, col: string): Option<Page> {
    var hasNextPage := |rows| > limit;
    var data := if hasNextPage then rows[..limit] else rows;
    if hasNextPage && data != [] then
      match CreateCursor(data[|data| - 1], col)
      case None => None
      case Some(cursor) => Some(Page(data, Some(cursor), true))
    else Some(Page(data, None, hasNextPage))
  }

  /** A cursor made from a row asks for what lies beyond exactly that row. */
  lemma CursorRoundTrip(row: Row, col: string)
    requires HasKey(row, col)
    ensures BuildCursorWhere(CreateCursor(row, col), col) == Some(Beyond(KeyOf(row, col)))
  {
  }

  // ---------------------------------------------------------------------------
  // The database's half
  // ---------------------------------------------------------------------------

  /** Every row has its key, and no two rows share an id. */
  ghost predicate GoodTable(table: set<Row>, col: string) {
    && (forall row :: row in table ==> HasKey(row, col))
    && (forall a, b :: a in table && b in table && a["id"] == b["id"] ==> a == b)
  }

  /** The rows are the first `n` of the table that pass the clause, in key order. */
  ghost predicate IsFetch(table: set<Row>, clause: Clause, dir: Direction, col: string, n: nat, rows: seq<Row>)
    requires GoodTable(table, col)
  {
    && |rows| <= n
    && (forall i :: 0 <= i < |rows| ==> rows[i] in table && Passes(clause, dir, KeyOf(rows[i], col)))
    && (forall i, j :: 0 <= i < j < |rows| ==> rows[i] != rows[j])
    && (forall i, j :: 0 <= i < j < |rows| ==> !Before(dir, KeyOf(rows[j], col), KeyOf(rows[i], col)))
    && (forall row :: row in table && Passes(clause, dir, KeyOf(row, col)) && row !in rows ==>
         |rows| == n && forall i :: 0 <= i < n ==> !Before(dir, KeyOf(row, col), KeyOf(rows[i], col)))
  }

  // ---------------------------------------------------------------------------
  // A walk
  // ---------------------------------------------------------------------------

  /** Page `k` is read from `tables[k]`; anyone may change the table between pages. */
  datatype Walk = Walk(col: string, dir: Direction, limit: nat, tables: seq<set<Row>>, pages: seq<Page>)

  function CursorAt(w: Walk, k: nat): Option<Payload>
    requires k <= |w.pages|
  {
    if k == 0 then None else w.pages[k - 1].nextCursor
  }

  ghost predicate PageAt(w: Walk, k: nat)
    requires k < |w.pages| == |w.tables|
  {
    && GoodTable(w.tables[k], w.col)
    && (k > 0 ==> CursorAt(w, k).Some?)
    && BuildCursorWhere(CursorAt(w, k), w.col).Some?
    && exists rows :: Reads(w, k, rows)
  }

  ghost predicate Reads(w: Walk, k: nat, rows: seq<Row>)
    requires k < |w.pages| == |w.tables| && GoodTable(w.tables[k], w.col)
    requires BuildCursorWhere(CursorAt(w, k), w.col).Some?
  {
    && IsFetch(w.tables[k], BuildCursorWhere(CursorAt(w, k), w.col).value, w.dir, w.col, w.limit + 1, rows)
    && Paginate(rows, w.limit, w.col) == Some(w.pages[k])
  }

  ghost predicate IsWalk(w: Walk) {
    && |w.tables| == |w.pages| > 0
    && w.limit > 0
    && forall k :: 0 <= k < |w.pages| ==> PageAt(w, k)
  }

  /** The walk ended because a page had no next one. */
  ghost predicate Completed(w: Walk) {
    IsWalk(w) && w.pages[|w.pages| - 1].nextCursor.None?
  }

  /** Where page `k` starts: beyond nothing, or beyond the last row of the page before. */
  ghost function Start(w: Walk, k: nat): Clause
    requires k <= |w.pages|
  {
    match BuildCursorWhere(CursorAt(w, k), w.col) case None => Everything case Some(clause) => clause
  }

  /** The keys page `k` is answerable for: from its start to the next page's start, or to the end. */
  ghost predicate InWindow(w: Walk, k: nat, key: Key)
    requires k < |w.pages|
  {
    && Passes(Start(w, k), w.dir, key)
    && (k + 1 < |w.pages| ==> !Passes(Start(w, k + 1), w.dir, key))
  }

  ghost predicate Holds(table: set<Row>, col: string, key: Key) {
    exists row :: row in table && HasKey(row, col) && KeyOf(row, col) == key
  }

  /** Position `j` of page `k` shows this key. */
  ghost predicate Shows(w: Walk, k: nat, j: nat, key: Key) {
    k < |w.pages| && j < |w.pages[k].data| && HasKey(w.pages[k].data[j], w.col) && KeyOf(w.pages[k].data[j], w.col) == key
  }

  /** What a page is, in terms of its table and where it and its successor start. */
  lemma PageFacts(w: Walk, k: nat)
    requires IsWalk(w) && k < |w.pages| && PageAt(w, k)
    ensures var data := w.pages[k].data;
      && (forall j :: 0 <= j < |data| ==> data[j] in w.tables[k] && Passes(Start(w, k), w.dir, KeyOf(data[j], w.col)))
      && (forall i, j :: 0 <= i < j < |data| ==> Before(w.dir, KeyOf(data[i], w.col), KeyOf(data[j], w.col)))
      && (w.pages[k].nextCursor.None? ==>
           forall row :: row in w.tables[k] && Passes(Start(w, k), w.dir, KeyOf(row, w.col)) ==> row in data)
      && (w.pages[k].nextCursor.Some? ==>
           && |data| == w.limit
           && BuildCursorWhere(CursorAt(w, k + 1), w.col) == Some(Beyond(KeyOf(data[|data| - 1], w.col)))
           && forall row :: row in w.tables[k] && Passes(Start(w, k), w.dir, KeyOf(row, w.col)) ==>
                Before(w.dir, KeyOf(data[|data| - 1], w.col), KeyOf(row, w.col)) || row in data)
    ensures w.pages[k].nextCursor.Some? == w.pages[k].hasNextPage
    ensures w.pages[k].hasNextPage <==>
      exists row :: row in w.tables[k] && Passes(Start(w, k), w.dir, KeyOf(row, w.col)) && row !in w.pages[k].data
  {
    hide Passes, Before, BuildCursorWhere, CreateCursor;
    var rows :| Reads(w, k, rows);
    KeysAreStrict(w, k, rows);
    if w.pages[k].nextCursor.Some? {
      assert rows[w.limit] in w.tables[k] && rows[w.limit] !in w.pages[k].data;
      NoneBetween(w, k, rows);
      CursorAsksBeyond(w, k, rows);
    }
  }

  lemma CursorAsksBeyond(w: Walk, k: nat, rows: seq<Row>)
    requires k < |w.pages| && w.pages[k].nextCursor.Some? && Paginate(rows, w.limit, w.col) == Some(w.pages[k])
    ensures |rows| > w.limit > 0 && HasKey(rows[w.limit - 1], w.col)
    ensures BuildCursorWhere(CursorAt(w, k + 1), w.col) == Some(Beyond(KeyOf(rows[w.limit - 1], w.col)))
  {
    CursorRoundTrip(rows[w.limit - 1], w.col);
  }

  lemma KeysAreStrict(w: Walk, k: nat, rows: seq<Row>)
    requires IsWalk(w) && k < |w.pages| && PageAt(w, k) && Reads(w, k, rows)
    ensures forall i, j :: 0 <= i < j < |rows| ==> Before(w.dir, KeyOf(rows[i], w.col), KeyOf(rows[j], w.col))
  {
    forall i, j | 0 <= i < j < |rows|
      ensures Before(w.dir, KeyOf(rows[i], w.col), KeyOf(rows[j], w.col))
    {
      assert rows[i] in w.tables[k] && rows[j] in w.tables[k] && rows[i] != rows[j];
    }
  }

  /** No row of the table lies between a page's last row and the extra row fetched after it. */
  lemma NoneBetween(w: Walk, k: nat, rows: seq<Row>)
    requires IsWalk(w) && k < |w.pages| && PageAt(w, k) && Reads(w, k, rows)
    requires w.pages[k].nextCursor.Some?
    ensures |rows| == w.limit + 1 && w.pages[k].data == rows[..w.limit]
    ensures forall row :: row in w.tables[k] && Passes(Start(w, k), w.dir, KeyOf(row, w.col)) ==>
      Before(w.dir, KeyOf(rows[w.limit - 1], w.col), KeyOf(row, w.col)) || row in rows[..w.limit]
  {
    KeysAreStrict(w, k, rows);
    var last, extra := rows[w.limit - 1], rows[w.limit];
    assert Before(w.dir, KeyOf(last, w.col), KeyOf(extra, w.col));
    assert forall row :: row in w.tables[k] && Passes(Start(w, k), w.dir, KeyOf(row, w.col)) && row !in rows ==>
        !Before(w.dir, KeyOf(row, w.col), KeyOf(extra, w.col));
    forall row | row in w.tables[k] && Passes(Start(w, k), w.dir, KeyOf(row, w.col))
      && !Before(w.dir, KeyOf(last, w.col), KeyOf(row, w.col))
      ensures row in rows[..w.limit]
    {
      assert row in rows;
      var i :| 0 <= i < |rows| && rows[i] == row;
      assert i < w.limit;
    }
  }

  // ---------------------------------------------------------------------------
  // Every key has one window
  // ---------------------------------------------------------------------------

  /** Each page starts further on than every page before it. */
  lemma {:induction false} StartsAdvance(w: Walk, k: nat, m: nat, key: Key)
    requires IsWalk(w) && k <= m < |w.pages|
    requires Passes(Start(w, m), w.dir, key)
    ensures Passes(Start(w, k), w.dir, key)
    decreases m - k
  {
    hide IsFetch, Paginate;
    if k < m {
      assert PageAt(w, m - 1) && PageAt(w, m);
      PageFacts(w, m - 1);
      var data := w.pages[m - 1].data;
      assert Passes(Start(w, m - 1), w.dir, KeyOf(data[|data| - 1], w.col));
      StartsAdvance(w, k, m - 1, key);
    }
  }

  /** No two pages answer for the same key. */
  lemma WindowsAreDisjoint(w: Walk, k: nat, m: nat, key: Key)
    requires IsWalk(w) && k < |w.pages| && m < |w.pages|
    requires InWindow(w, k, key) && InWindow(w, m, key)
    ensures k == m
  {
    hide IsFetch, Paginate, GoodTable, Passes;
    if k < m {
      StartsAdvance(w, k + 1, m, key);
    } else if m < k {
      StartsAdvance(w, m + 1, k, key);
    }
  }

  /** Some page answers for each key. */
  lemma {:induction false} SomeWindow(w: Walk, m: nat, key: Key) returns (k: nat)
    requires IsWalk(w) && m < |w.pages|
    requires m + 1 < |w.pages| ==> !Passes(Start(w, m + 1), w.dir, key)
    ensures k < |w.pages| && InWindow(w, k, key)
  {
    hide IsFetch, Paginate, GoodTable;
    if Passes(Start(w, m), w.dir, key) {
      k := m;
    } else {
      k := SomeWindow(w, m - 1, key);
    }
  }

  // ---------------------------------------------------------------------------
  // Main results
  // ---------------------------------------------------------------------------

  /** A page shows only keys it answers for, each at most once. */
  lemma ShownInWindow(w: Walk, k: nat, j: nat, key: Key)
    requires IsWalk(w) && Shows(w, k, j, key)
    ensures InWindow(w, k, key)
    ensures forall i :: Shows(w, k, i, key) ==> i == j
  {
    hide IsFetch, Paginate;
    assert PageAt(w, k);
    PageFacts(w, k);
    if k + 1 < |w.pages| {
      assert PageAt(w, k + 1);
      var data := w.pages[k].data;
      assert j == |data| - 1 || Before(w.dir, key, KeyOf(data[|data| - 1], w.col));
    }
  }

  /**
   * Of a completed walk: each key has exactly one page that answers for it, and
   * the walk shows the key, once and on that page, exactly when the table held a
   * row with that key when that page was read.
   */
  lemma ShownIffHeld(w: Walk, key: Key) returns (k: nat)
    requires Completed(w)
    ensures k < |w.pages| && InWindow(w, k, key)
    ensures forall m, j :: Shows(w, m, j, key) ==> m == k
    ensures forall i, j :: Shows(w, k, i, key) && Shows(w, k, j, key) ==> i == j
    ensures Holds(w.tables[k], w.col, key) <==> exists j :: Shows(w, k, j, key)
  {
    hide IsFetch, Paginate;
    assert PageAt(w, |w.pages| - 1);
    k := SomeWindow(w, |w.pages| - 1, key);
    forall m, j | Shows(w, m, j, key)
      ensures m == k && forall i :: Shows(w, m, i, key) ==> i == j
    {
      ShownInWindow(w, m, j, key);
      WindowsAreDisjoint(w, m, k, key);
    }
    assert PageAt(w, k);
    PageFacts(w, k);
    if Holds(w.tables[k], w.col, key) {
      var row :| row in w.tables[k] && HasKey(row, w.col) && KeyOf(row, w.col) == key;
      var data := w.pages[k].data;
      assert row in data by {
        if k + 1 < |w.pages| {
          assert PageAt(w, k + 1);
          assert !Passes(Start(w, k + 1), w.dir, key);
        }
      }
      var j :| 0 <= j < |data| && data[j] == row;
      assert Shows(w, k, j, key);
    }
  }

  /** A key that every table of a completed walk holds is shown exactly once, whatever else changes. */
  lemma PersistentRowIsShownOnce(w: Walk, key: Key) returns (k: nat, j: nat)
    requires Completed(w)
    requires forall m :: 0 <= m < |w.tables| ==> Holds(w.tables[m], w.col, key)
    ensures Shows(w, k, j, key)
    ensures forall m, i :: Shows(w, m, i, key) ==> m == k && i == j
  {
    hide IsFetch, Paginate, Holds, Shows;
    k := ShownIffHeld(w, key);
    j :| Shows(w, k, j, key);
  }

  // ---------------------------------------------------------------------------
  // The walk as one list
  // ---------------------------------------------------------------------------

  /** The rows of the first `n` pages, one page after the other. */
  ghost function Shown(w: Walk, n: nat): seq<Row>
    requires n <= |w.pages|
  {
    if n == 0 then [] else Shown(w, n - 1) + w.pages[n - 1].data
  }

  ghost predicate Ascends(rows: seq<Row>, col: string, dir: Direction) {
    && (forall i :: 0 <= i < |rows| ==> HasKey(rows[i], col))
    && (forall i, j :: 0 <= i < j < |rows| ==> Before(dir, KeyOf(rows[i], col), KeyOf(rows[j], col)))
  }

  /** Whatever happens to the table, the keys shown never repeat and never go back. */
  lemma {:induction false} WalkAscends(w: Walk, n: nat)
    requires IsWalk(w) && n <= |w.pages|
    ensures Ascends(Shown(w, n), w.col, w.dir)
    ensures n < |w.pages| ==> forall i :: 0 <= i < |Shown(w, n)| ==>
      !Passes(Start(w, n), w.dir, KeyOf(Shown(w, n)[i], w.col))
  {
    hide IsFetch, Paginate;
    if n > 0 {
      assert PageAt(w, n - 1);
      var before, data := Shown(w, n - 1), w.pages[n - 1].data;
      WalkAscends(w, n - 1);
      PageFacts(w, n - 1);
      PagesJoin(before, data, Start(w, n - 1), w.col, w.dir);
      if n < |w.pages| {
        assert PageAt(w, n);
        forall i | 0 <= i < |Shown(w, n)|
          ensures !Passes(Start(w, n), w.dir, KeyOf(Shown(w, n)[i], w.col))
        {
          assert Passes(Start(w, n - 1), w.dir, KeyOf(data[|data| - 1], w.col));
          assert i < |before| ==> !Passes(Start(w, n - 1), w.dir, KeyOf(before[i], w.col));
        }
      }
    }
  }

  lemma PagesJoin(before: seq<Row>, data: seq<Row>, start: Clause, col: string, dir: Direction)
    requires Ascends(before, col, dir) && Ascends(data, col, dir)
    requires forall i :: 0 <= i < |before| ==> !Passes(start, dir, KeyOf(before[i], col))
    requires forall i :: 0 <= i < |data| ==> Passes(start, dir, KeyOf(data[i], col))
    ensures Ascends(before + data, col, dir)
  {
    var all := before + data;
    forall i, j | 0 <= i < j < |all|
      ensures Before(dir, KeyOf(all[i], col), KeyOf(all[j], col))
    {
      if i < |before| <= j {
        assert !Passes(start, dir, KeyOf(all[i], col));
        assert Passes(start, dir, KeyOf(all[j], col));
      }
    }
  }

  ghost predicate Unchanged(w: Walk, table: set<Row>) {
    forall k :: 0 <= k < |w.tables| ==> w.tables[k] == table
  }

  lemma {:induction false} ShownHas(w: Walk, n: nat, row: Row)
    requires n <= |w.pages|
    ensures row in Shown(w, n) <==> exists k :: 0 <= k < n && row in w.pages[k].data
  {
    if n > 0 {
      ShownHas(w, n - 1, row);
    }
  }

  /** On a table nobody changes, a completed walk shows the table itself, in order. */
  lemma UnchangedTableIsShown(w: Walk, table: set<Row>)
    requires Completed(w) && Unchanged(w, table)
    ensures Ascends(Shown(w, |w.pages|), w.col, w.dir)
    ensures forall row :: row in Shown(w, |w.pages|) <==> row in table
  {
    hide IsFetch, Paginate, Ascends, Shown;
    WalkAscends(w, |w.pages|);
    assert PageAt(w, 0);
    forall row
      ensures row in Shown(w, |w.pages|) <==> row in table
    {
      ShownHas(w, |w.pages|, row);
      if row in Shown(w, |w.pages|) {
        var k :| 0 <= k < |w.pages| && row in w.pages[k].data;
        assert PageAt(w, k);
        PageFacts(w, k);
      }
      if row in table {
        RowIsShown(w, table, row);
      }
    }
  }

  lemma RowIsShown(w: Walk, table: set<Row>, row: Row)
    requires Completed(w) && Unchanged(w, table) && row in table
    ensures exists k :: 0 <= k < |w.pages| && row in w.pages[k].data
  {
    hide IsFetch, Paginate;
    assert PageAt(w, 0);
    var key := KeyOf(row, w.col);
    assert Holds(table, w.col, key);
    var k, j := PersistentRowIsShownOnce(w, key);
    assert PageAt(w, k);
    PageFacts(w, k);
    assert w.pages[k].data[j] in table;
  }

  lemma {:induction false} NoMoreThanTable(rows: seq<Row>, table: set<Row>)
    requires forall i :: 0 <= i < |rows| ==> rows[i] in table
    requires forall i, j :: 0 <= i < j < |rows| ==> rows[i] != rows[j]
    ensures |rows| <= |table|
  {
    if rows != [] {
      var last := rows[|rows| - 1];
      NoMoreThanTable(rows[..|rows| - 1], table - {last});
    }
  }

  lemma {:induction false} FullPages(w: Walk, n: nat)
    requires IsWalk(w) && n < |w.pages|
    ensures |Shown(w, n)| == n * w.limit
  {
    if n > 0 {
      FullPages(w, n - 1);
      assert PageAt(w, n - 1) && PageAt(w, n);
      PageFacts(w, n - 1);
      assert n * w.limit == (n - 1) * w.limit + w.limit;
    }
  }

  /** On a table nobody changes the walk ends: all its pages but the last are full. */
  lemma WalkEnds(w: Walk, table: set<Row>)
    requires IsWalk(w) && Unchanged(w, table)
    ensures (|w.pages| - 1) * w.limit <= |table|
  {
    hide IsFetch, Paginate;
    var n := |w.pages| - 1;
    var rows := Shown(w, n);
    FullPages(w, n);
    WalkAscends(w, n);
    forall i | 0 <= i < |rows|
      ensures rows[i] in table
    {
      ShownHas(w, n, rows[i]);
      var k :| 0 <= k < n && rows[i] in w.pages[k].data;
      assert PageAt(w, k);
      PageFacts(w, k);
    }
    assert forall i, j :: 0 <= i < j < |rows| ==> Before(w.dir, KeyOf(rows[i], w.col), KeyOf(rows[j], w.col));
    NoMoreThanTable(rows, table);
  }
}
