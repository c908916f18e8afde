/** Offset and keyset pages of a table, which here is the set of its unique integer keys. A table may change
    between two requests; one request sees one table. */
module Pagination {

  import opened Wrappers
  import opened Cursors
  import opened Bits

  datatype OffsetPage = OffsetPage(items: seq<int>, limit: int, offset: int, page: int, total: Option<nat>,
                                   hasMore: bool)
  datatype CursorPage = CursorPage(items: seq<int>, limit: int, nextCursor: Option<string>, hasMore: bool)

  /** How JSON is read, and which key values the database driver takes for the key column: executing a query
      with any other raises the driver's own error. */
  datatype Backend = Backend(loads: Loads, accepts: int -> bool)

  // -- ORDER BY, LIMIT, OFFSET ------------------------------------------------------------------------

  predicate Before(descending: bool, a: int, b: int) { if descending then a > b else a < b }

  predicate Ordered(descending: bool, s: seq<int>) { forall i, j | 0 <= i < j < |s| :: Before(descending, s[i], s[j]) }

  /** Every key of the table once, in order. */
  ghost predicate Lists(rows: seq<int>, table: set<int>, descending: bool) {
    Ordered(descending, rows) && (forall k :: k in rows <==> k in table) && |rows| == |table|
  }

  /** The table by ORDER BY; OrderIsUnique says there is no choice. */
  ghost function Rows(table: set<int>, descending: bool): seq<int> {
    HasListing(table, descending);
    var rows :| Lists(rows, table, descending); rows
  }

  lemma {:induction false} HasListing(table: set<int>, descending: bool)
    ensures exists rows :: Lists(rows, table, descending)
    decreases |table|
  {
    assert (forall k :: k !in table) ==> table == {};
    if table == {} {
      assert Lists([], table, descending);
    } else {
      var k :| k in table;
      HasListing(table - {k}, descending);
      var rest :| Lists(rest, table - {k}, descending);
      var at := Position(rest, descending, k);
      InsertedAt(rest, descending, k, at);
      assert Lists(rest[..at] + [k] + rest[at..], table, descending);
    }
  }

  function Take<T>(s: seq<T>, n: int): seq<T> { if n <= 0 then [] else if n < |s| then s[..n] else s }

  function Drop<T>(s: seq<T>, n: int): seq<T> { if n <= 0 then s else if n < |s| then s[n..] else [] }

  /** WHERE key > after, or < after. */
  function Seek(table: set<int>, descending: bool, after: Option<int>): set<int> {
    match after
    case None => table
    case Some(k) => set row | row in table && Before(descending, k, row)
  }

  function Smaller(a: int, b: int): int { if a <= b then a else b }

  // -- The two operations -----------------------------------------------------------------------------

  /** `_clamp`. */
  function Clamp(limit: int, maxLimit: int): Result<int, Failure>
    requires maxLimit >= 1
  {
    if limit < 1 then Err(ValueError) else Ok(if limit <= maxLimit then limit else maxLimit)
  }

  /** `paginate_offset`, over a statement ordered by the key. */
  ghost function PaginateOffset(table: set<int>, descending: bool, limit: int, offset: int, maxLimit: int,
                                withTotal: bool): Result<OffsetPage, Failure>
    requires maxLimit >= 1
  {
    match Clamp(limit, maxLimit)
    case Err(e) => Err(e)
    case Ok(limit) =>
      if offset < 0 then Err(ValueError)
      else
        var total := if withTotal then Some(|table|) else None;
        var rows := Take(Drop(Rows(table, descending), offset), limit + 1);
        Ok(OffsetPage(Take(rows, limit), limit, offset, offset / limit + 1, total, |rows| > limit))
  }

  /** `paginate_cursor`. */
  ghost function PaginateCursor(table: set<int>, descending: bool, limit: int, cursor: Option<string>, maxLimit: int,
                                backend: Backend): Result<CursorPage, Failure>
    requires maxLimit >= 1
  {
    match Clamp(limit, maxLimit)
    case Err(e) => Err(e)
    case Ok(limit) =>
      if cursor.Some? && cursor.value != "" then
        match KeyOf(cursor.value, backend.loads)
        case Err(e) => Err(e)
        case Ok(k) =>
          if !backend.accepts(k) then Err(DriverError)
          else Ok(PageOf(Rows(Seek(table, descending, Some(k)), descending), limit))
      else Ok(PageOf(Rows(table, descending), limit))
  }

  /** What becomes of the rows the query selects. */
  function PageOf(selected: seq<int>, limit: int): CursorPage {
    var rows := Take(selected, limit + 1);
    var hasMore := |rows| > limit;
    var items := Take(rows, limit);
    CursorPage(items, limit, CursorFor(NextKey(items, hasMore)), hasMore)
  }

  function NextKey(items: seq<int>, hasMore: bool): Option<int> {
    if hasMore && items != [] then Some(items[|items| - 1]) else None
  }

  function CursorFor(after: Option<int>): Option<string> {
    match after
    case None => None
    case Some(k) => Some(KeyCursor(k))
  }

  // -- Sorted rows --------------------------------------------------------------------------------------

  /** ORDER BY puts every key once, in order. */
  lemma RowsAre(table: set<int>, descending: bool)
    ensures Ordered(descending, Rows(table, descending))
    ensures forall k :: k in Rows(table, descending) <==> k in table
    ensures |Rows(table, descending)| == |table|
  {
    HasListing(table, descending);
  }

  lemma RestOf(s: seq<int>, descending: bool)
    requires Ordered(descending, s) && s != []
    ensures s == [s[0]] + s[1..] && Ordered(descending, s[1..])
    ensures forall k :: k in s[1..] <==> k in s && k != s[0]
  {
    assert s == [s[0]] + s[1..];
  }

  lemma SameFirst(a: seq<int>, b: seq<int>, descending: bool)
    requires Ordered(descending, a) && Ordered(descending, b) && (a != [] || b != []) && forall k :: k in a <==> k in b
    ensures a != [] && b != [] && a[0] == b[0]
  {
    assert a != [] ==> a[0] in a;
    assert b != [] ==> b[0] in b;
    var i :| 0 <= i < |b| && b[i] == a[0];
    var j :| 0 <= j < |a| && a[j] == b[0];
  }

  /** There is one way to put a set in order. */
  lemma {:induction false} OrderIsUnique(a: seq<int>, b: seq<int>, descending: bool)
    requires Ordered(descending, a) && Ordered(descending, b) && forall k :: k in a <==> k in b
    ensures a == b
  {
    if a != [] || b != [] {
      SameFirst(a, b, descending);
      RestOf(a, descending);
      RestOf(b, descending);
      OrderIsUnique(a[1..], b[1..], descending);
    }
  }

  lemma SuffixIs(s: seq<int>, descending: bool, p: nat)
    requires Ordered(descending, s) && 0 < p <= |s|
    ensures forall k :: k in s[p..] <==> k in s && Before(descending, s[p - 1], k)
  {
    forall k | k in s && Before(descending, s[p - 1], k) ensures k in s[p..] {
      var i :| 0 <= i < |s| && s[i] == k;
      assert i >= p;
      assert s[p..][i - p] == k;
    }
  }

  /** Seeking past the row at p - 1 selects exactly the rows from p on. */
  lemma SeekIsSuffix(table: set<int>, descending: bool, p: nat)
    requires 0 < p <= |Rows(table, descending)|
    ensures Rows(Seek(table, descending, Some(Rows(table, descending)[p - 1])), descending)
        == Rows(table, descending)[p..]
  {
    var rows := Rows(table, descending);
    var rest := Seek(table, descending, Some(rows[p - 1]));
    RowsAre(table, descending);
    RowsAre(rest, descending);
    SuffixIs(rows, descending, p);
    OrderIsUnique(Rows(rest, descending), rows[p..], descending);
  }

  // -- One page ---------------------------------------------------------------------------------------------

  /** An offset page: the limit it reports is the smaller of what was asked and the maximum; it holds that many
      rows of the sorted table from the offset on, or all there are; it has more exactly if the table does,
      and lies on the page it says. */
  lemma OffsetPageHolds(table: set<int>, descending: bool, limit: int, offset: nat, maxLimit: int, withTotal: bool)
    requires maxLimit >= 1 && limit >= 1
    ensures var result := PaginateOffset(table, descending, limit, offset, maxLimit, withTotal);
            var rows, size := Rows(table, descending), Smaller(limit, maxLimit);
            && result.Ok? && result.value.limit == size && result.value.offset == offset
            && result.value.items == rows[Smaller(offset, |rows|)..Smaller(offset + size, |rows|)]
            && (result.value.hasMore <==> |table| > offset + size)
            && result.value.total == (if withTotal then Some(|table|) else None)
            && (result.value.page - 1) * size <= offset < (result.value.page - 1) * size + size
  {
    var rows, size := Rows(table, descending), Smaller(limit, maxLimit);
    RowsAre(table, descending);
    PageSlice(rows, offset, size);
    PageSpan(offset, size);
  }

  lemma PageSpan(offset: nat, size: nat)
    requires size >= 1
    ensures offset / size * size <= offset < offset / size * size + size
  {
  }

  lemma PageSlice(rows: seq<int>, offset: nat, size: nat)
    requires size >= 1
    ensures Take(Take(Drop(rows, offset), size + 1), size)
         == rows[Smaller(offset, |rows|)..Smaller(offset + size, |rows|)]
    ensures |Take(Drop(rows, offset), size + 1)| > size <==> |rows| > offset + size
  {
  }

  /** It fails exactly for a limit below 1 or a negative offset, and then with ValueError. */
  lemma OffsetFailsExactly(table: set<int>, descending: bool, limit: int, offset: int, maxLimit: int, withTotal: bool)
    requires maxLimit >= 1
    ensures var result := PaginateOffset(table, descending, limit, offset, maxLimit, withTotal);
            (result.Err? <==> limit < 1 || offset < 0) && (result.Err? ==> result.error == ValueError)
  {
  }

  /** The key a request starts after, if its cursor is a good one. */
  predicate StartsAfter(cursor: Option<string>, backend: Backend, after: Option<int>) {
    if cursor.None? || cursor.value == "" then after == None
    else after.Some? && KeyOf(cursor.value, backend.loads) == Ok(after.value) && backend.accepts(after.value)
  }

  /** A keyset page: the limit as above; that many of the sorted rows past the cursor's key, or all there are;
      more, and a cursor for the last row shown, exactly if further rows are selected. */
  lemma CursorPageHolds(table: set<int>, descending: bool, limit: int, cursor: Option<string>, maxLimit: int,
                        backend: Backend, after: Option<int>, rows: seq<int>, size: nat)
    requires maxLimit >= 1 && limit >= 1 && StartsAfter(cursor, backend, after)
    requires rows == Rows(Seek(table, descending, after), descending) && size == Smaller(limit, maxLimit)
    ensures PaginateCursor(table, descending, limit, cursor, maxLimit, backend)
         == Ok(CursorPage(rows[..Smaller(size, |rows|)], size,
                          if |rows| > size then Some(KeyCursor(rows[size - 1])) else None, |rows| > size))
  {
    CursorPageIs(table, descending, limit, cursor, maxLimit, backend, after);
    PageOfHolds(rows, size);
  }

  lemma CursorPageIs(table: set<int>, descending: bool, limit: int, cursor: Option<string>, maxLimit: int,
                     backend: Backend, after: Option<int>)
    requires maxLimit >= 1 && limit >= 1 && StartsAfter(cursor, backend, after)
    ensures PaginateCursor(table, descending, limit, cursor, maxLimit, backend)
         == Ok(PageOf(Rows(Seek(table, descending, after), descending), Smaller(limit, maxLimit)))
  {
  }

  lemma PageOfHolds(rows: seq<int>, size: nat)
    requires size >= 1
    ensures PageOf(rows, size)
         == CursorPage(rows[..Smaller(size, |rows|)], size,
                       if |rows| > size then Some(KeyCursor(rows[size - 1])) else None, |rows| > size)
  {
    PageOfIs(rows, size);
    LastShown(rows, size);
  }

  // -- Following next_cursor ----------------------------------------------------------------------------

  /** What a reader collects: one request per table in turn, each with the cursor of the page before,
      until a page has no next cursor. */
  datatype Journey = Journey(items: seq<int>, finished: bool)

  ghost function Walk(tables: seq<set<int>>, descending: bool, limit: int, cursor: Option<string>, maxLimit: int,
                      backend: Backend): Result<Journey, Failure>
    requires maxLimit >= 1
    decreases |tables|
  {
    if tables == [] then Ok(Journey([], false))
    else match PaginateCursor(tables[0], descending, limit, cursor, maxLimit, backend)
      case Err(e) => Err(e)
      case Ok(page) =>
        if page.nextCursor.None? then Ok(Journey(page.items, true))
        else WalkOn(page.items, Walk(tables[1..], descending, limit, page.nextCursor, maxLimit, backend))
  }

  /** The same with keys for cursors. */
  ghost function KeyWalk(tables: seq<set<int>>, descending: bool, size: nat, after: Option<int>): Journey
    requires size >= 1
    decreases |tables|
  {
    if tables == [] then Journey([], false)
    else
      var rows := Rows(Seek(tables[0], descending, after), descending);
      if |rows| <= size then Journey(rows, true)
      else
        var journey := KeyWalk(tables[1..], descending, size, Some(rows[size - 1]));
        Journey(rows[..size] + journey.items, journey.finished)
  }

  lemma LastShown(selected: seq<int>, size: nat)
    requires size >= 1
    ensures NextKey(Take(selected, size), |selected| > size)
         == if |selected| > size then Some(selected[size - 1]) else None
  {
  }

  lemma PageOfIs(selected: seq<int>, size: nat)
    requires size >= 1
    ensures PageOf(selected, size)
         == CursorPage(Take(selected, size), size, CursorFor(NextKey(Take(selected, size), |selected| > size)),
             |selected| > size)
  {
    TakeTwice(selected, size);
  }

  /** What a table holds went through the driver. */
  ghost predicate Storable(tables: seq<set<int>>, backend: Backend) {
    forall k | InSome(tables, k) :: backend.accepts(k)
  }

  lemma {:induction false} WalkIsKeyWalk(tables: seq<set<int>>, descending: bool, limit: int, after: Option<int>,
                                         maxLimit: int, backend: Backend, size: nat)
    requires maxLimit >= 1 && limit >= 1 && size == Smaller(limit, maxLimit) && ReadsKeys(backend.loads)
    requires Storable(tables, backend) && (after.Some? ==> backend.accepts(after.value))
    ensures Walk(tables, descending, limit, CursorFor(after), maxLimit, backend)
         == Ok(KeyWalk(tables, descending, size, after))
    decreases |tables|
  {
    if tables != [] {
      var rows := Rows(Seek(tables[0], descending, after), descending);
      PageAfterKey(tables[0], descending, limit, after, maxLimit, backend, size);
      FirstPage(tables, descending, size, after);
      WalkFrom(tables, descending, limit, CursorFor(after), maxLimit, backend);
      if |rows| > size {
        NextIsStorable(tables, descending, after, backend, size);
        WalkIsKeyWalk(tables[1..], descending, limit, Some(rows[size - 1]), maxLimit, backend, size);
      }
    }
  }

  lemma WalkFrom(tables: seq<set<int>>, descending: bool, limit: int, cursor: Option<string>, maxLimit: int,
                 backend: Backend)
    requires maxLimit >= 1 && tables != []
    requires PaginateCursor(tables[0], descending, limit, cursor, maxLimit, backend).Ok?
    ensures var page := PaginateCursor(tables[0], descending, limit, cursor, maxLimit, backend).value;
            Walk(tables, descending, limit, cursor, maxLimit, backend) ==
              if page.nextCursor.None? then Ok(Journey(page.items, true))
              else WalkOn(page.items, Walk(tables[1..], descending, limit, page.nextCursor, maxLimit, backend))
  {
  }

  function WalkOn(items: seq<int>, walk: Result<Journey, Failure>): Result<Journey, Failure> {
    match walk
    case Err(e) => Err(e)
    case Ok(journey) => Ok(Journey(items + journey.items, journey.finished))
  }

  lemma PageAfterKey(table: set<int>, descending: bool, limit: int, after: Option<int>, maxLimit: int, backend: Backend,
                     size: nat)
    requires maxLimit >= 1 && limit >= 1 && size == Smaller(limit, maxLimit) && ReadsKeys(backend.loads)
    requires after.Some? ==> backend.accepts(after.value)
    ensures var page := PaginateCursor(table, descending, limit, CursorFor(after), maxLimit, backend);
            var rows := Rows(Seek(table, descending, after), descending);
            && page.Ok? && page.value.items == (if |rows| <= size then rows else rows[..size])
            && page.value.nextCursor == CursorFor(if |rows| > size then Some(rows[size - 1]) else None)
  {
    if after.Some? { KeySurvives(after.value, backend.loads); }
    var rows := Rows(Seek(table, descending, after), descending);
    CursorPageHolds(table, descending, limit, CursorFor(after), maxLimit, backend, after, rows, size);
  }

  lemma NextIsStorable(tables: seq<set<int>>, descending: bool, after: Option<int>, backend: Backend, size: nat)
    requires tables != [] && Storable(tables, backend) && size >= 1
    requires |Rows(Seek(tables[0], descending, after), descending)| > size
    ensures backend.accepts(Rows(Seek(tables[0], descending, after), descending)[size - 1])
    ensures Storable(tables[1..], backend)
  {
    var rows := Rows(Seek(tables[0], descending, after), descending);
    RowsAre(Seek(tables[0], descending, after), descending);
    assert rows[size - 1] in rows;
    InRest(tables, rows[size - 1]);
    forall k | InSome(tables[1..], k) ensures backend.accepts(k) { InRest(tables, k); }
  }

  predicate After(descending: bool, after: Option<int>, k: int) { after.None? || Before(descending, after.value, k) }

  ghost predicate InSome(tables: seq<set<int>>, k: int) { exists i :: 0 <= i < |tables| && k in tables[i] }

  ghost predicate InAll(tables: seq<set<int>>, k: int) { forall i | 0 <= i < |tables| :: k in tables[i] }

  lemma OrderedConcat(a: seq<int>, b: seq<int>, descending: bool)
    requires Ordered(descending, a) && Ordered(descending, b)
    requires a != [] ==> forall k | k in b :: Before(descending, a[|a| - 1], k)
    ensures Ordered(descending, a + b)
  {
    forall i, j | 0 <= i < j < |a + b| ensures Before(descending, (a + b)[i], (a + b)[j]) {
      if i < |a| <= j {
        assert b[j - |a|] in b;
      }
    }
  }

  ghost predicate OrderedAfter(descending: bool, after: Option<int>, s: seq<int>) {
    Ordered(descending, s) && forall k | k in s :: After(descending, after, k)
  }

  lemma PageThenRest(rows: seq<int>, size: nat, rest: seq<int>, descending: bool, after: Option<int>)
    requires OrderedAfter(descending, after, rows) && 1 <= size < |rows|
    requires OrderedAfter(descending, Some(rows[size - 1]), rest)
    ensures OrderedAfter(descending, after, rows[..size] + rest)
  {
    OrderedConcat(rows[..size], rest, descending);
    assert rows[size - 1] in rows;
  }

  lemma {:induction false} KeyWalkOrdered(tables: seq<set<int>>, descending: bool, size: nat, after: Option<int>)
    requires size >= 1
    ensures OrderedAfter(descending, after, KeyWalk(tables, descending, size, after).items)
    decreases |tables|
  {
    if tables != [] {
      var rows := Rows(Seek(tables[0], descending, after), descending);
      RowsAre(Seek(tables[0], descending, after), descending);
      if |rows| > size {
        KeyWalkOrdered(tables[1..], descending, size, Some(rows[size - 1]));
        PageThenRest(rows, size, KeyWalk(tables[1..], descending, size, Some(rows[size - 1])).items, descending, after);
      }
    }
  }

  lemma InRest(tables: seq<set<int>>, k: int)
    requires tables != []
    ensures InSome(tables, k) <==> k in tables[0] || InSome(tables[1..], k)
    ensures InAll(tables, k) <==> k in tables[0] && InAll(tables[1..], k)
  {
    assert forall i | 0 <= i < |tables| - 1 :: tables[1..][i] == tables[i + 1];
    if InSome(tables[1..], k) {
      var i :| 0 <= i < |tables[1..]| && k in tables[1..][i];
      assert k in tables[i + 1];
    }
    if InAll(tables[1..], k) && k in tables[0] {
      forall i | 0 <= i < |tables| ensures k in tables[i] {
        assert i > 0 ==> k in tables[1..][i - 1];
      }
    }
  }

  lemma {:induction false} KeyWalkFromTables(tables: seq<set<int>>, descending: bool, size: nat, after: Option<int>,
                                             k: int)
    requires size >= 1 && k in KeyWalk(tables, descending, size, after).items
    ensures InSome(tables, k)
    decreases |tables|
  {
    var rows := Rows(Seek(tables[0], descending, after), descending);
    RowsAre(Seek(tables[0], descending, after), descending);
    InRest(tables, k);
    assert k in rows[..if |rows| < size then |rows| else size] ==> k in rows;
    if |rows| > size && k !in rows[..size] {
      KeyWalkFromTables(tables[1..], descending, size, Some(rows[size - 1]), k);
    }
  }

  lemma {:induction false} KeyWalkComplete(tables: seq<set<int>>, descending: bool, size: nat, after: Option<int>,
                                           k: int)
    requires size >= 1 && InAll(tables, k) && After(descending, after, k)
    requires KeyWalk(tables, descending, size, after).finished
    ensures k in KeyWalk(tables, descending, size, after).items
    decreases |tables|
  {
    var rows := Rows(Seek(tables[0], descending, after), descending);
    RowsAre(Seek(tables[0], descending, after), descending);
    InRest(tables, k);
    assert k in rows;
    if |rows| > size && k !in rows[..size] {
      SuffixIs(rows, descending, size);
      assert rows == rows[..size] + rows[size..];
      KeyWalkComplete(tables[1..], descending, size, Some(rows[size - 1]), k);
    }
  }

  lemma {:induction false} OnceIfOrdered(s: seq<int>, descending: bool, k: int)
    requires Ordered(descending, s)
    ensures multiset(s)[k] == if k in s then 1 else 0
  {
    if s != [] {
      OnceIfOrdered(s[1..], descending, k);
      assert s == [s[0]] + s[1..];
      assert s[0] !in s[1..];
    }
  }

  /** A walk over any tables, with rows inserted and deleted between its pages: no request fails, the keys
      come strictly in order, nothing is repeated or made up, and once the walk ends every row that was
      there throughout has come exactly once. */
  lemma WalkIsStable(tables: seq<set<int>>, descending: bool, limit: int, maxLimit: int, backend: Backend)
    requires maxLimit >= 1 && limit >= 1 && ReadsKeys(backend.loads) && Storable(tables, backend)
    ensures var walk := Walk(tables, descending, limit, None, maxLimit, backend);
            && walk.Ok?
            && Ordered(descending, walk.value.items)
            && (forall k :: multiset(walk.value.items)[k] <= 1)
            && (forall k | k in walk.value.items :: InSome(tables, k))
            && (walk.value.finished ==> forall k | InAll(tables, k) :: multiset(walk.value.items)[k] == 1)
  {
    var size: nat := Smaller(limit, maxLimit);
    var journey := KeyWalk(tables, descending, size, None);
    WalkIsKeyWalk(tables, descending, limit, None, maxLimit, backend, size);
    KeyWalkOrdered(tables, descending, size, None);
    forall k
      ensures multiset(journey.items)[k] <= 1 && (k in journey.items ==> InSome(tables, k))
      ensures journey.finished && InAll(tables, k) ==> multiset(journey.items)[k] == 1
    {
      if k in journey.items { KeyWalkFromTables(tables, descending, size, None, k); }
      if journey.finished && InAll(tables, k) { KeyWalkComplete(tables, descending, size, None, k); }
      OnceIfOrdered(journey.items, descending, k);
    }
  }

  // -- On an unchanging table ---------------------------------------------------------------------------

  function Copies(table: set<int>, n: nat): seq<set<int>> { if n == 0 then [] else [table] + Copies(table, n - 1) }

  lemma {:induction false} InCopies(table: set<int>, n: nat, k: int)
    requires InSome(Copies(table, n), k)
    ensures k in table
  {
    if n > 0 && k !in table {
      InRest(Copies(table, n), k);
      assert Copies(table, n)[1..] == Copies(table, n - 1);
      InCopies(table, n - 1, k);
    }
  }

  function KeyBefore(rows: seq<int>, p: nat): Option<int>
    requires p <= |rows|
  {
    if p == 0 then None else Some(rows[p - 1])
  }

  lemma SelectedFrom(table: set<int>, descending: bool, p: nat)
    requires p <= |Rows(table, descending)|
    ensures Rows(Seek(table, descending, KeyBefore(Rows(table, descending), p)), descending)
        == Rows(table, descending)[p..]
  {
    if p > 0 { SeekIsSuffix(table, descending, p); }
  }

  lemma FirstPage(tables: seq<set<int>>, descending: bool, size: nat, after: Option<int>)
    requires size >= 1 && tables != []
    ensures var rows := Rows(Seek(tables[0], descending, after), descending);
            && (|rows| <= size ==> KeyWalk(tables, descending, size, after) == Journey(rows, true))
            && (|rows| > size ==>
                  (var journey := KeyWalk(tables[1..], descending, size, Some(rows[size - 1]));
                   KeyWalk(tables, descending, size, after) == Journey(rows[..size] + journey.items, journey.finished)))
  {
  }

  lemma Times(n: nat, size: nat)
    requires n >= 1
    ensures n * size == size + (n - 1) * size >= size
  {
  }

  /** From row p on, the walk over these tables collects the next `room` rows of the table. */
  ghost predicate Collects(tables: seq<set<int>>, table: set<int>, descending: bool, size: nat, p: nat, room: nat,
                           ends: bool)
    requires size >= 1 && p <= |Rows(table, descending)|
  {
    KeyWalk(tables, descending, size, KeyBefore(Rows(table, descending), p))
      == Journey(Take(Rows(table, descending)[p..], room), ends)
  }

  /** One page of an unchanging table, then a walk that collects up to `more` further rows. */
  lemma PageOfStatic(rest: seq<set<int>>, table: set<int>, descending: bool, size: nat, p: nat, more: nat, ends: bool)
    requires size >= 1 && p <= |Rows(table, descending)|
    requires p + size < |Rows(table, descending)| ==> Collects(rest, table, descending, size, p + size, more, ends)
    ensures Collects([table] + rest, table, descending, size, p, size + more,
                     p + size >= |Rows(table, descending)| || ends)
  {
    var rows := Rows(table, descending);
    SelectedFrom(table, descending, p);
    FirstPage([table] + rest, descending, size, KeyBefore(rows, p));
    assert ([table] + rest)[1..] == rest;
    if p + size < |rows| {
      TakeMore(rows[p..], size, more);
      assert rows[p..][size..] == rows[p + size..];
    }
  }

  /** What n pages hold. */
  function Capacity(n: nat, size: nat): nat { if n == 0 then 0 else size + Capacity(n - 1, size) }

  lemma {:induction false} CapacityIs(n: nat, size: nat)
    ensures Capacity(n, size) == n * size
  {
    if n > 0 { CapacityIs(n - 1, size); }
  }

  /** n requests from row p on. */
  ghost predicate CollectsPages(table: set<int>, descending: bool, size: nat, n: nat, p: nat)
    requires size >= 1
  {
    p <= |Rows(table, descending)| ==>
      Collects(Copies(table, n), table, descending, size, p, Capacity(n, size),
               n >= 1 && p + Capacity(n, size) >= |Rows(table, descending)|)
  }

  lemma OneMorePage(table: set<int>, descending: bool, size: nat, n: nat, p: nat)
    requires size >= 1 && n >= 1 && CollectsPages(table, descending, size, n - 1, p + size)
    ensures CollectsPages(table, descending, size, n, p)
  {
    var count := |Rows(table, descending)|;
    var ends := n > 1 && p + Capacity(n, size) >= count;
    if p <= count {
      PageOfStatic(Copies(table, n - 1), table, descending, size, p, Capacity(n - 1, size), ends);
      assert p + Capacity(n, size) >= count <==> p + size >= count || ends;
    }
  }

  lemma NoPages(table: set<int>, descending: bool, size: nat, p: nat)
    requires size >= 1
    ensures CollectsPages(table, descending, size, 0, p)
  {
  }

  lemma {:induction false} KeyWalkStatic(table: set<int>, descending: bool, size: nat, n: nat, p: nat)
    requires size >= 1
    ensures CollectsPages(table, descending, size, n, p)
    decreases n
  {
    if n == 0 {
      NoPages(table, descending, size, p);
    } else {
      KeyWalkStatic(table, descending, size, n - 1, p + size);
      OneMorePage(table, descending, size, n, p);
    }
  }

  lemma TakeMore<T>(s: seq<T>, a: nat, b: nat)
    requires a <= |s|
    ensures Take(s, a + b) == s[..a] + Take(s[a..], b)
  {
  }

  /** While the table does not change, n requests give the first n pages' rows of the sorted table, and the
      walk has ended exactly when they cover it: a finished walk is the sorted table. */
  lemma WalkOfUnchanging(table: set<int>, descending: bool, limit: int, maxLimit: int, backend: Backend, n: nat,
                         size: nat)
    requires maxLimit >= 1 && limit >= 1 && size == Smaller(limit, maxLimit) && ReadsKeys(backend.loads)
    requires forall k | k in table :: backend.accepts(k)
    ensures Walk(Copies(table, n), descending, limit, None, maxLimit, backend)
         == Ok(Journey(Take(Rows(table, descending), n * size), n >= 1 && n * size >= |table|))
  {
    forall k | InSome(Copies(table, n), k) ensures backend.accepts(k) { InCopies(table, n, k); }
    WalkIsKeyWalk(Copies(table, n), descending, limit, None, maxLimit, backend, size);
    KeyWalkStatic(table, descending, size, n, 0);
    CapacityIs(n, size);
    RowsAre(table, descending);
    assert Rows(table, descending)[0..] == Rows(table, descending);
  }

  /** The items of the first n offset pages, one after the other. */
  ghost function OffsetPages(table: set<int>, descending: bool, limit: int, maxLimit: int, n: nat): seq<int>
    requires maxLimit >= 1 && limit >= 1
  {
    if n == 0 then []
    else
      var size := Smaller(limit, maxLimit);
      OffsetPages(table, descending, limit, maxLimit, n - 1)
        + match PaginateOffset(table, descending, limit, (n - 1) * size, maxLimit, true)
          case Ok(page) => page.items
          case Err(_) => []
  }

  lemma PageNumber(i: nat, size: nat)
    requires size >= 1
    ensures i * size >= 0 && (i * size) / size == i && (i + 1) * size == i * size + size
  {
    DivModUnique(i * size, size, i, 0);
    if i > 0 { AtLeastOnce(i, size); }
  }

  lemma OffsetPageAt(table: set<int>, descending: bool, limit: int, offset: nat, maxLimit: int, size: nat)
    requires maxLimit >= 1 && limit >= 1 && size == Smaller(limit, maxLimit)
    ensures PaginateOffset(table, descending, limit, offset, maxLimit, true)
         == Ok(OffsetPage(Take(Drop(Rows(table, descending), offset), size), size, offset, offset / size + 1,
                          Some(|table|), |table| > offset + size))
  {
    var rows := Rows(table, descending);
    RowsAre(table, descending);
    PageRows(rows, offset, size);
  }

  lemma PageRows(rows: seq<int>, offset: nat, size: nat)
    requires size >= 1
    ensures Take(Take(Drop(rows, offset), size + 1), size) == Take(Drop(rows, offset), size)
    ensures |Take(Drop(rows, offset), size + 1)| > size <==> |rows| > offset + size
  {
    TakeTwice(Drop(rows, offset), size);
  }

  /** An offset page: its rows, its number, and that there are more exactly when the total says so. */
  lemma OffsetPageIs(table: set<int>, descending: bool, limit: int, i: nat, maxLimit: int, size: nat, offset: nat)
    requires maxLimit >= 1 && limit >= 1 && size == Smaller(limit, maxLimit) && offset == i * size
    ensures PaginateOffset(table, descending, limit, offset, maxLimit, true)
         == Ok(OffsetPage(Take(Drop(Rows(table, descending), offset), size), size, offset, i + 1, Some(|table|),
                          |table| > (i + 1) * size))
  {
    OffsetPageAt(table, descending, limit, offset, maxLimit, size);
    PageNumber(i, size);
  }

  lemma TakeTwice<T>(s: seq<T>, n: nat)
    ensures Take(Take(s, n + 1), n) == Take(s, n) && (|Take(s, n + 1)| > n <==> |s| > n)
  {
  }

  lemma {:induction false} OffsetPagesAre(table: set<int>, descending: bool, limit: int, maxLimit: int, n: nat,
                                          size: nat)
    requires maxLimit >= 1 && limit >= 1 && size == Smaller(limit, maxLimit)
    ensures OffsetPages(table, descending, limit, maxLimit, n) == Take(Rows(table, descending), n * size)
  {
    if n > 0 {
      var offset := (n - 1) * size;
      PageNumber(n - 1, size);
      assert n * size == offset + size;
      OffsetPagesAre(table, descending, limit, maxLimit, n - 1, size);
      OffsetPageIs(table, descending, limit, n - 1, maxLimit, size, offset);
      DropMore(Rows(table, descending), offset, size);
    }
  }

  lemma DropMore<T>(s: seq<T>, a: int, b: nat)
    requires a >= 0
    ensures Take(s, a + b) == Take(s, a) + Take(Drop(s, a), b)
  {
  }

  /** The two styles agree page for page: after n requests either has read the same rows. */
  lemma StylesAgree(table: set<int>, descending: bool, limit: int, maxLimit: int, backend: Backend, n: nat)
    requires maxLimit >= 1 && limit >= 1 && ReadsKeys(backend.loads) && forall k | k in table :: backend.accepts(k)
    ensures Walk(Copies(table, n), descending, limit, None, maxLimit, backend).Ok?
    ensures Walk(Copies(table, n), descending, limit, None, maxLimit, backend).value.items
         == OffsetPages(table, descending, limit, maxLimit, n)
  {
    var size: nat := Smaller(limit, maxLimit);
    WalkOfUnchanging(table, descending, limit, maxLimit, backend, n, size);
    OffsetPagesAre(table, descending, limit, maxLimit, n, size);
  }

  // -- Ending ---------------------------------------------------------------------------------------------

  predicate Within(s: seq<int>, lo: int, hi: int) { forall i | 0 <= i < |s| :: lo <= s[i] <= hi }

  lemma {:induction false} FitsRange(s: seq<int>, descending: bool, lo: int, hi: int)
    requires Ordered(descending, s) && Within(s, lo, hi) && lo <= hi + 1
    ensures |s| <= hi - lo + 1
    decreases |s|
  {
    if s != [] {
      var last := s[|s| - 1];
      if descending { FitsRange(s[..|s| - 1], descending, last + 1, hi); }
      else { FitsRange(s[..|s| - 1], descending, lo, last - 1); }
    }
  }

  lemma {:induction false} UnfinishedLength(tables: seq<set<int>>, descending: bool, size: nat, after: Option<int>)
    requires size >= 1 && !KeyWalk(tables, descending, size, after).finished
    ensures |KeyWalk(tables, descending, size, after).items| == |tables| * size
    decreases |tables|
  {
    if tables != [] {
      var rows := Rows(Seek(tables[0], descending, after), descending);
      FirstPage(tables, descending, size, after);
      UnfinishedLength(tables[1..], descending, size, Some(rows[size - 1]));
      Times(|tables|, size);
    }
  }

  /** A walk that has not ended knows of one more row behind all it has collected. */
  lemma {:induction false} UnfinishedMore(tables: seq<set<int>>, descending: bool, size: nat, after: Option<int>)
    returns (more: int)
    requires size >= 1 && tables != [] && !KeyWalk(tables, descending, size, after).finished
    ensures InSome(tables, more) && KeyWalk(tables, descending, size, after).items != []
    ensures var items := KeyWalk(tables, descending, size, after).items; Before(descending, items[|items| - 1], more)
    decreases |tables|
  {
    var rows := Rows(Seek(tables[0], descending, after), descending);
    RowsAre(Seek(tables[0], descending, after), descending);
    FirstPage(tables, descending, size, after);
    var rest := KeyWalk(tables[1..], descending, size, Some(rows[size - 1])).items;
    if tables[1..] == [] {
      more := rows[size];
      assert rows[..size] + rest == rows[..size];
    } else {
      more := UnfinishedMore(tables[1..], descending, size, Some(rows[size - 1]));
      assert (rows[..size] + rest)[size + |rest| - 1] == rest[|rest| - 1];
    }
    InRest(tables, more);
  }

  lemma KeyWalkEnds(tables: seq<set<int>>, descending: bool, size: nat, lo: int, hi: int)
    requires size >= 1 && (forall k | InSome(tables, k) :: lo <= k <= hi)
    requires tables != [] && |tables| * size > hi - lo
    ensures KeyWalk(tables, descending, size, None).finished
  {
    var journey := KeyWalk(tables, descending, size, None);
    if !journey.finished {
      var more := UnfinishedMore(tables, descending, size, None);
      UnfinishedLength(tables, descending, size, None);
      KeyWalkOrdered(tables, descending, size, None);
      forall k | k in journey.items ensures lo <= k <= hi { KeyWalkFromTables(tables, descending, size, None, k); }
      OneMoreFits(journey.items, descending, lo, hi, more);
    }
  }

  lemma OneMoreFits(s: seq<int>, descending: bool, lo: int, hi: int, more: int)
    requires Ordered(descending, s) && (forall k | k in s :: lo <= k <= hi) && lo <= more <= hi
    requires s != [] && Before(descending, s[|s| - 1], more)
    ensures |s| <= hi - lo
  {
    OrderedConcat(s, [more], descending);
    var longer := s + [more];
    assert forall i | 0 <= i < |s| :: s[i] in s;
    FitsRange(longer, descending, lo, hi);
  }

  /** On a bounded key range a walk ends however the tables change: as soon as its pages could hold every
      key of the range. */
  lemma WalkEnds(tables: seq<set<int>>, descending: bool, limit: int, maxLimit: int, backend: Backend, lo: int, hi: int,
                 size: nat)
    requires maxLimit >= 1 && limit >= 1 && size == Smaller(limit, maxLimit) && ReadsKeys(backend.loads)
    requires Storable(tables, backend) && forall k | InSome(tables, k) :: lo <= k <= hi
    requires tables != [] && |tables| * size > hi - lo
    ensures Walk(tables, descending, limit, None, maxLimit, backend).Ok?
    ensures Walk(tables, descending, limit, None, maxLimit, backend).value.finished
  {
    WalkIsKeyWalk(tables, descending, limit, None, maxLimit, backend, size);
    KeyWalkEnds(tables, descending, size, lo, hi);
  }

  // -- What offset pages do instead -------------------------------------------------------------------

  lemma InsertedAt(rows: seq<int>, descending: bool, x: int, at: nat)
    requires Ordered(descending, rows) && x !in rows && at <= |rows|
    requires forall i | 0 <= i < at :: Before(descending, rows[i], x)
    requires forall i | at <= i < |rows| :: Before(descending, x, rows[i])
    ensures Ordered(descending, rows[..at] + [x] + rows[at..])
    ensures forall k :: k in rows[..at] + [x] + rows[at..] <==> k == x || k in rows
  {
    assert rows == rows[..at] + rows[at..];
    OrderedConcat(rows[..at], [x], descending);
    OrderedConcat(rows[..at] + [x], rows[at..], descending);
  }

  lemma InsertedBefore(table: set<int>, descending: bool, x: int, p: nat)
    requires x !in table && p < |Rows(table, descending)| && Before(descending, x, Rows(table, descending)[p])
    ensures |Rows(table + {x}, descending)| == |Rows(table, descending)| + 1
    ensures Rows(table + {x}, descending)[p + 1] == Rows(table, descending)[p]
  {
    RowsAre(table, descending);
    RowsAre(table + {x}, descending);
    LongerRows(Rows(table, descending), Rows(table + {x}, descending), descending, x, p);
  }

  lemma LongerRows(rows: seq<int>, longer: seq<int>, descending: bool, x: int, p: nat)
    requires Ordered(descending, rows) && Ordered(descending, longer) && x !in rows
    requires forall k :: k in longer <==> k == x || k in rows
    requires p < |rows| && Before(descending, x, rows[p])
    ensures |longer| == |rows| + 1 && longer[p + 1] == rows[p]
  {
    var at := Position(rows, descending, x);
    InsertedAt(rows, descending, x, at);
    OrderIsUnique(longer, rows[..at] + [x] + rows[at..], descending);
    assert at <= p;
    ShiftedBy(rows, x, at, p);
  }

  lemma ShiftedBy(rows: seq<int>, x: int, at: nat, p: nat)
    requires at <= p < |rows|
    ensures (rows[..at] + [x] + rows[at..])[p + 1] == rows[p]
  {
  }

  lemma {:induction false} Position(s: seq<int>, descending: bool, x: int) returns (at: nat)
    requires Ordered(descending, s) && x !in s
    ensures at <= |s| && (forall i | 0 <= i < at :: Before(descending, s[i], x))
    ensures forall i | at <= i < |s| :: Before(descending, x, s[i])
  {
    if s == [] || Before(descending, x, s[0]) {
      at := 0;
    } else {
      at := Position(s[1..], descending, x);
      at := at + 1;
    }
  }

  /** One row inserted ahead of the reader between two offset pages: the last row of the one is the first
      of the other, for every table and page. */
  lemma OffsetRepeats(table: set<int>, descending: bool, limit: int, maxLimit: int, i: nat, size: nat, x: int)
    requires maxLimit >= 1 && limit >= 1 && size == Smaller(limit, maxLimit)
    requires |Rows(table, descending)| >= (i + 1) * size >= 1
    requires x !in table && Before(descending, x, Rows(table, descending)[(i + 1) * size - 1])
    ensures i * size >= 0
    ensures var page := PaginateOffset(table, descending, limit, i * size, maxLimit, true);
            var next := PaginateOffset(table + {x}, descending, limit, (i + 1) * size, maxLimit, true);
            && page.Ok? && next.Ok? && |page.value.items| == size && next.value.items != []
            && next.value.items[0] == page.value.items[size - 1]
  {
    var p := (i + 1) * size - 1;
    PageNumber(i, size);
    OffsetPageIs(table, descending, limit, i, maxLimit, size, i * size);
    OffsetPageIs(table + {x}, descending, limit, i + 1, maxLimit, size, p + 1);
    InsertedBefore(table, descending, x, p);
  }

  // -- Errors -------------------------------------------------------------------------------------------------

  /** The payload of a cursor, as JSON is read. */
  function PayloadOf(cursor: Option<string>, backend: Backend): Option<Loaded> {
    if cursor.None? || cursor.value == "" then None
    else match Decode(Pad(cursor.value))
      case None => None
      case Some(raw) => Some(backend.loads(raw))
  }

  /** The payload's key is a proper one for `_coerce_key`, but not one the driver takes. */
  predicate OutOfRange(payload: Loaded, backend: Backend) {
    && payload.Parsed? && payload.json.Object? && "k" in payload.json.members
    && CoerceInt(payload.json.members["k"]).Ok? && !backend.accepts(CoerceInt(payload.json.members["k"]).value)
  }

  /** A request fails with a ValueError, as documented, unless its limit is good and its cursor, not the empty
      one, decodes to a payload that overreaches or whose key is out of the column's range: then, and only
      then, another error comes out. */
  lemma FailsAsDocumented(table: set<int>, descending: bool, limit: int, cursor: Option<string>, maxLimit: int,
                          backend: Backend)
    requires maxLimit >= 1
    ensures var page := PaginateCursor(table, descending, limit, cursor, maxLimit, backend);
            var payload := PayloadOf(cursor, backend);
            && (limit < 1 ==> page == Err(ValueError))
            && (page.Err? && page.error != ValueError <==>
                  limit >= 1 && payload.Some? && (Overreaches(payload.value) || OutOfRange(payload.value, backend)))
            && (page == Err(DriverError) <==> limit >= 1 && payload.Some? && OutOfRange(payload.value, backend))
  {
    if cursor.Some? { EscapesExactly(cursor.value, backend.loads); }
  }

  /** There are such cursors whenever the column's range has an end: every key past it, printed as the
      program prints keys, is let through by `_coerce_key` and refused by the driver, on every table. */
  lemma WideKeyEscapes(table: set<int>, descending: bool, limit: int, key: int, maxLimit: int, backend: Backend)
    requires maxLimit >= 1 && limit >= 1 && ReadsKeys(backend.loads) && !backend.accepts(key)
    ensures KeyOf(KeyCursor(key), backend.loads) == Ok(key)
    ensures PaginateCursor(table, descending, limit, Some(KeyCursor(key)), maxLimit, backend) == Err(DriverError)
  {
    KeySurvives(key, backend.loads);
  }

  /** No cursor the program itself hands out fails, whatever table it is used on later. */
  lemma OwnCursorsWork(table: set<int>, descending: bool, limit: int, cursor: Option<string>, other: set<int>,
                       maxLimit: int, backend: Backend)
    requires maxLimit >= 1 && ReadsKeys(backend.loads) && forall k | k in table :: backend.accepts(k)
    requires PaginateCursor(table, descending, limit, cursor, maxLimit, backend).Ok?
    ensures var page := PaginateCursor(table, descending, limit, cursor, maxLimit, backend).value;
            PaginateCursor(other, descending, limit, page.nextCursor, maxLimit, backend).Ok?
  {
    var page := PaginateCursor(table, descending, limit, cursor, maxLimit, backend).value;
    var next := NextKey(page.items, page.hasMore);
    var size := Smaller(limit, maxLimit);
    if next.Some? {
      var after := if cursor.Some? && cursor.value != "" then Some(KeyOf(cursor.value, backend.loads).value) else None;
      var selected := Seek(table, descending, after);
      RowsAre(selected, descending);
      LastIsSelected(Rows(selected, descending), size);
      KeySurvives(next.value, backend.loads);
    }
  }

  lemma LastIsSelected(selected: seq<int>, size: nat)
    requires size >= 1
    ensures var page := PageOf(selected, size);
            var next := NextKey(page.items, page.hasMore);
            page.nextCursor == CursorFor(next) && (next.Some? ==> next.value in selected)
  {
    PageOfIs(selected, size);
    LastShown(selected, size);
  }
}
