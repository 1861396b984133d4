/** Draining the pages of one stateless SQL read. */
module SqlDrain {
  import opened Common

  // ----- native answers

  type Cell = string  // raw JSON text

  type Grid = seq<seq<Cell>>

  datatype Vector = Cells(cells: seq<Cell>) | Malformed

  datatype Arrays = Absent | NotArrays | Arrays(vectors: seq<Vector>)

  datatype Columns = NoColumns | BadColumns | Columns(count: nat)

  /** A decoded page. fault is the code of the first control field that must not be there (a persisted identifier,
      a partial, running or failed execution, an unknown field); done says that no cursor identifier came with it. */
  datatype Response = Response(fault: Option<string>, done: bool, columns: Columns, rows: Arrays, values: Arrays)

  function Own(r: Response, columnar: bool): Arrays { if columnar then r.values else r.rows }

  function Other(r: Response, columnar: bool): Arrays { if columnar then r.rows else r.values }

  function GridOf(vectors: seq<Vector>): (g: Grid)
    ensures |g| == |vectors|
    ensures forall i :: 0 <= i < |g| ==> g[i] == if vectors[i].Cells? then vectors[i].cells else []
  {
    seq(|vectors|, i requires 0 <= i < |vectors| => if vectors[i].Cells? then vectors[i].cells else [])
  }

  /** The vectors the caller reads back from an accepted page. */
  function Vectors(r: Response, columnar: bool): Grid {
    if Own(r, columnar).Arrays? then GridOf(Own(r, columnar).vectors) else []
  }

  predicate Rectangular(g: Grid, width: int) { forall i :: 0 <= i < |g| ==> |g[i]| == width }

  function Height(g: Grid, columnar: bool): nat {
    if !columnar then |g| else if g == [] then 0 else |g[0]|
  }

  function RowAt(columns: Grid, j: nat): (row: seq<Cell>)
    requires forall i :: 0 <= i < |columns| ==> j < |columns[i]|
    ensures |row| == |columns|
    ensures forall i :: 0 <= i < |row| ==> row[i] == columns[i][j]
  {
    seq(|columns|, i requires 0 <= i < |columns| => columns[i][j])
  }

  /** The table as a sequence of rows, whichever way it was sent. */
  function AsRows(g: Grid, columnar: bool): (rows: Grid) {
    if !columnar then g
    else if !Rectangular(g, Height(g, true)) then []
    else seq(Height(g, true), j requires 0 <= j < Height(g, true) => RowAt(g, j))
  }

  // ----- one page

  ghost function Width(r: Response, columns: int): int { if r.columns.Columns? then r.columns.count else columns }

  /** The page has the schema, the orientation and the shape the cursor has had from its first page on. */
  ghost predicate WellShaped(r: Response, columnar: bool, columns: int, first: bool) {
    && !r.columns.BadColumns? && (first ==> r.columns.Columns?)
    && (r.columns.Columns? && columns >= 0 ==> r.columns.count == columns)
    && Other(r, columnar).Absent? && Own(r, columnar).Arrays?
    && (forall v <- Own(r, columnar).vectors :: v.Cells?)
    && (var g := Vectors(r, columnar);
        && Rectangular(g, if columnar then Height(g, true) else Width(r, columns))
        && (columnar ==> g == [] || |g| == Width(r, columns)))
  }

  ghost predicate Shaped(r: Response, columnar: bool, columns: int, first: bool, limit: nat) {
    r.fault.None? && WellShaped(r, columnar, columns, first) && Height(Vectors(r, columnar), columnar) <= limit
  }

  /** Why a page that is not shaped as it should be is refused. */
  ghost function ShapeCode(r: Response, columnar: bool, columns: int, first: bool): string {
    if r.fault.Some? then r.fault.value
    else if WellShaped(r, columnar, columns, first) then "resource_limit" else "invalid_response"
  }

  method ValidateSQLPage(r: Response, columnar: bool, columns: int, first: bool, limit: nat)
    returns (shape: Result<(nat, int)>)
    ensures shape.Ok? <==> Shaped(r, columnar, columns, first, limit)
    ensures shape.Ok? ==> shape.value == (Height(Vectors(r, columnar), columnar), Width(r, columns))
    ensures shape.Err? ==> shape.code == ShapeCode(r, columnar, columns, first)
  {
    var width := columns;
    if r.fault.Some? { return Err(r.fault.value); }
    match r.columns {
      case BadColumns => return Err("invalid_response");
      case NoColumns => if first { return Err("invalid_response"); }
      case Columns(count) =>
        if columns >= 0 && count != columns { return Err("invalid_response"); }
        width := count;
    }
    if !Other(r, columnar).Absent? { return Err("invalid_response"); }
    var own := Own(r, columnar);
    if !own.Arrays? { return Err("invalid_response"); }
    var rows := |own.vectors|;
    if columnar {
      rows := 0;
      if |own.vectors| != width && |own.vectors| != 0 { return Err("invalid_response"); }
    }
    ghost var g := Vectors(r, columnar);
    for i := 0 to |own.vectors|
      invariant forall k :: 0 <= k < i ==> own.vectors[k].Cells? && |g[k]| == if columnar then |g[0]| else width
      invariant rows == if !columnar then |own.vectors| else if i == 0 then 0 else |g[0]|
    {
      if own.vectors[i].Malformed? { return Err("invalid_response"); }
      var cells := own.vectors[i].cells;
      assert cells == g[i];
      if columnar {
        if i == 0 {
          rows := |cells|;
        } else if |cells| != rows {
          return Err("invalid_response");
        }
      } else if |cells| != width {
        return Err("invalid_response");
      }
    }
    if rows > limit { return Err("resource_limit"); }
    return Ok((rows, width));
  }

  // ----- a run of pages

  /** What the world answers to one page request: the transport outcome, whether it came after the deadline, and
      whether the cursor may still be used afterwards. */
  datatype Turn = Turn(reply: Result<Response>, late: bool, usable: bool)

  datatype Read = Read(envelope: Response, data: Grid)

  /** A page that sqlPage lets through. */
  ghost predicate PageGood(turn: Turn, columnar: bool, columns: int, first: bool, limit: nat) {
    && turn.reply.Ok? && !turn.late
    && Shaped(turn.reply.value, columnar, columns, first, limit)
    && (turn.reply.value.done || Height(Vectors(turn.reply.value, columnar), columnar) > 0)
  }

  /** Why sqlPage does not let a page through. */
  ghost function PageCode(turn: Turn, columnar: bool, columns: int, first: bool, limit: nat): string {
    match turn.reply
    case Err(code) => code
    case Ok(r) =>
      if !Shaped(r, columnar, columns, first, limit) then ShapeCode(r, columnar, columns, first)
      else if !r.done && Height(Vectors(r, columnar), columnar) == 0 then "invalid_response"
      else "deadline_exceeded"
  }

  /** The column count the cursor holds before page k: the first page fixes it. */
  ghost function Schema(turns: nat -> Turn, k: nat): int {
    if k == 0 || turns(0).reply.Err? then -1 else Width(turns(0).reply.value, -1)
  }

  ghost predicate Accepted(turns: nat -> Turn, columnar: bool, limit: nat, k: nat) {
    PageGood(turns(k), columnar, Schema(turns, k), k == 0, limit)
  }

  ghost function PageVectors(turns: nat -> Turn, columnar: bool, k: nat): Grid {
    if turns(k).reply.Ok? then Vectors(turns(k).reply.value, columnar) else []
  }

  /** Every column i of a is continued by column i of b. */
  function Alongside(a: Grid, b: Grid): (g: Grid)
    ensures |g| == |a|
    ensures forall i :: 0 <= i < |a| ==> g[i] == a[i] + if i < |b| then b[i] else []
  {
    seq(|a|, i requires 0 <= i < |a| => a[i] + if i < |b| then b[i] else [])
  }

  /** The vectors of the first n pages put together: end to end, or column by column. */
  ghost function Merged(turns: nat -> Turn, columnar: bool, n: nat): Grid
    requires n > 0
  {
    var last := PageVectors(turns, columnar, n - 1);
    if n == 1 then last
    else if columnar then Alongside(Merged(turns, columnar, n - 1), last)
    else Merged(turns, columnar, n - 1) + last
  }

  /** The rows of the first n pages in the order in which they came. */
  ghost function AllRows(turns: nat -> Turn, columnar: bool, n: nat): Grid {
    if n == 0 then []
    else AllRows(turns, columnar, n - 1) + AsRows(PageVectors(turns, columnar, n - 1), columnar)
  }

  datatype Limits = Limits(rows: nat, bytes: nat)

  /** Page k is accepted and what has been read so far stays within both limits. */
  ghost predicate Fits(turns: nat -> Turn, columnar: bool, size: (Response, Grid) -> nat, l: Limits, k: nat) {
    && Accepted(turns, columnar, l.rows, k)
    && |AllRows(turns, columnar, k + 1)| <= l.rows
    && turns(0).reply.Ok? && size(turns(0).reply.value, Merged(turns, columnar, k + 1)) <= l.bytes
  }

  ghost predicate Continues(turns: nat -> Turn, columnar: bool, size: (Response, Grid) -> nat, l: Limits, k: nat) {
    Fits(turns, columnar, size, l, k) && !turns(k).reply.value.done && turns(k).usable
  }

  /** Page n completes the read. */
  ghost predicate Drains(turns: nat -> Turn, columnar: bool, size: (Response, Grid) -> nat, l: Limits, n: nat) {
    && (forall k :: 0 <= k < n ==> Continues(turns, columnar, size, l, k))
    && Fits(turns, columnar, size, l, n) && turns(n).reply.value.done
  }

  /** The read breaks off at page n with this code: all pages before it went on, and this one is not let through, takes
      the read over a limit, or leaves a cursor that can no longer be used. */
  ghost predicate Stops(turns: nat -> Turn, columnar: bool, size: (Response, Grid) -> nat, l: Limits, n: nat, code: string) {
    && (forall k :: 0 <= k < n ==> Continues(turns, columnar, size, l, k))
    && if !Accepted(turns, columnar, l.rows, n) then code == PageCode(turns(n), columnar, Schema(turns, n), n == 0, l.rows)
       else if !Fits(turns, columnar, size, l, n) then code == "resource_limit"
       else !turns(n).reply.value.done && !turns(n).usable && code == "cursor_expired"
  }

  /** An accepted page is a table of as many rows as were counted. */
  lemma AcceptedHeight(turns: nat -> Turn, columnar: bool, limit: nat, k: nat)
    requires Accepted(turns, columnar, limit, k) && Accepted(turns, columnar, limit, 0)
    ensures var g := PageVectors(turns, columnar, k);
            && |AsRows(g, columnar)| == Height(g, columnar)
            && (columnar ==> Rectangular(g, Height(g, true)))
            && (columnar ==> g == [] || |g| == Width(turns(0).reply.value, -1))
  { }

  /** Every page but the last brings a row, so there are never more pages than rows allowed. */
  lemma {:induction false} PagesBringRows(turns: nat -> Turn, columnar: bool, size: (Response, Grid) -> nat, l: Limits, n: nat)
    requires forall k :: 0 <= k < n ==> Continues(turns, columnar, size, l, k)
    ensures n <= |AllRows(turns, columnar, n)|
  {
    if n > 0 {
      PagesBringRows(turns, columnar, size, l, n - 1);
      assert Continues(turns, columnar, size, l, n - 1) && Continues(turns, columnar, size, l, 0);
      AcceptedHeight(turns, columnar, l.rows, n - 1);
    }
  }

  /** Only one page can complete the read. */
  lemma DrainsOnce(turns: nat -> Turn, columnar: bool, size: (Response, Grid) -> nat, l: Limits, m: nat, n: nat)
    requires Drains(turns, columnar, size, l, m) && Drains(turns, columnar, size, l, n)
    ensures m == n
  {
    assert m < n ==> Continues(turns, columnar, size, l, m);
    assert n < m ==> Continues(turns, columnar, size, l, n);
  }

  /** Putting columns together and then reading rows is reading rows and then putting them end to end. */
  lemma AlongsideRows(a: Grid, b: Grid)
    requires Rectangular(a, Height(a, true)) && Rectangular(b, Height(b, true))
    requires a == [] ==> b == []
    requires Height(b, true) > 0 ==> |a| == |b|
    ensures var g := Alongside(a, b);
            && Rectangular(g, Height(a, true) + Height(b, true)) && Height(g, true) == Height(a, true) + Height(b, true)
            && AsRows(g, true) == AsRows(a, true) + AsRows(b, true)
  {
    var g := Alongside(a, b);
    if a != [] {
      assert g[0] == a[0] + if |b| > 0 then b[0] else [];
      forall i | 0 <= i < |a| ensures |g[i]| == Height(a, true) + Height(b, true) { }
      forall j | 0 <= j < Height(g, true) ensures AsRows(g, true)[j] == (AsRows(a, true) + AsRows(b, true))[j] {
        if j < Height(a, true) {
          assert RowAt(g, j) == RowAt(a, j);
        } else {
          assert RowAt(g, j) == RowAt(b, j - Height(a, true));
        }
      }
    }
  }

  lemma {:induction false} MergedRows(turns: nat -> Turn, columnar: bool, size: (Response, Grid) -> nat, l: Limits, n: nat)
    requires forall k :: 0 <= k < n ==> Continues(turns, columnar, size, l, k)
    requires Accepted(turns, columnar, l.rows, n)
    ensures AsRows(Merged(turns, columnar, n + 1), columnar) == AllRows(turns, columnar, n + 1)
    ensures columnar ==> var g := Merged(turns, columnar, n + 1);
              && Rectangular(g, Height(g, true))
              && (Height(PageVectors(turns, columnar, 0), true) > 0 ==> |g| == Width(turns(0).reply.value, -1))
  {
    if n > 0 {
      assert Continues(turns, columnar, size, l, n - 1) && Continues(turns, columnar, size, l, 0);
      AcceptedHeight(turns, columnar, l.rows, n);
      MergedRows(turns, columnar, size, l, n - 1);
      AcceptedHeight(turns, columnar, l.rows, 0);
      if columnar {
        assert Height(PageVectors(turns, columnar, 0), true) > 0;
        AlongsideRows(Merged(turns, columnar, n), PageVectors(turns, columnar, n));
      }
    } else {
      assert AllRows(turns, columnar, 0) == [];
    }
  }

  /** A completed read holds the rows of all its pages in order, and no more of them than allowed. */
  lemma DrainExact(turns: nat -> Turn, columnar: bool, size: (Response, Grid) -> nat, l: Limits, n: nat)
    requires Drains(turns, columnar, size, l, n)
    ensures AsRows(Merged(turns, columnar, n + 1), columnar) == AllRows(turns, columnar, n + 1)
    ensures |AllRows(turns, columnar, n + 1)| <= l.rows && n <= l.rows
  {
    MergedRows(turns, columnar, size, l, n);
    PagesBringRows(turns, columnar, size, l, n);
  }

  lemma {:induction false} RowsGrow(turns: nat -> Turn, columnar: bool, m: nat, n: nat)
    requires m <= n
    ensures |AllRows(turns, columnar, m)| <= |AllRows(turns, columnar, n)|
    decreases n - m
  {
    if m < n { RowsGrow(turns, columnar, m, n - 1); }
  }

  /** More pages are to come, and the cursor may fetch them. */
  predicate GoesOn(turn: Turn) { turn.reply.Ok? && !turn.reply.value.done && turn.usable }

  predicate IsLast(turn: Turn) { turn.reply.Ok? && turn.reply.value.done }

  ghost predicate ShortEnough(turns: nat -> Turn, columnar: bool, size: (Response, Grid) -> nat, l: Limits, k: nat) {
    turns(0).reply.Ok? && size(turns(0).reply.value, Merged(turns, columnar, k + 1)) <= l.bytes
  }

  /** The pages 0..n are good, page n and no other is the last, the merge never grows too long, and the rows of all pages
      together are no more than allowed. */
  ghost predicate Complete(turns: nat -> Turn, columnar: bool, size: (Response, Grid) -> nat, l: Limits, n: nat) {
    && (forall k :: 0 <= k <= n ==> Accepted(turns, columnar, l.rows, k) && ShortEnough(turns, columnar, size, l, k))
    && (forall k :: 0 <= k < n ==> GoesOn(turns(k)))
    && IsLast(turns(n)) && |AllRows(turns, columnar, n + 1)| <= l.rows
  }

  lemma DrainsComplete(turns: nat -> Turn, columnar: bool, size: (Response, Grid) -> nat, l: Limits, n: nat)
    requires Drains(turns, columnar, size, l, n)
    ensures Complete(turns, columnar, size, l, n)
  {
    hide PageGood, AllRows, Merged;
    forall k | 0 <= k <= n ensures Accepted(turns, columnar, l.rows, k) && ShortEnough(turns, columnar, size, l, k) {
      if k < n { assert Continues(turns, columnar, size, l, k); }
    }
    forall k | 0 <= k < n ensures GoesOn(turns(k)) {
      assert Continues(turns, columnar, size, l, k);
      GoodReply(turns, columnar, l.rows, k);
    }
    GoodReply(turns, columnar, l.rows, n);
  }

  lemma GoodReply(turns: nat -> Turn, columnar: bool, limit: nat, k: nat)
    requires Accepted(turns, columnar, limit, k)
    ensures turns(k).reply.Ok?
  { }

  lemma CompleteDrains(turns: nat -> Turn, columnar: bool, size: (Response, Grid) -> nat, l: Limits, n: nat)
    requires Complete(turns, columnar, size, l, n)
    ensures Drains(turns, columnar, size, l, n)
  {
    hide PageGood, AllRows, Merged;
    forall k | 0 <= k <= n ensures Fits(turns, columnar, size, l, k) {
      RowsGrow(turns, columnar, k + 1, n + 1);
      assert ShortEnough(turns, columnar, size, l, k);
    }
    forall k | 0 <= k < n ensures Continues(turns, columnar, size, l, k) { assert GoesOn(turns(k)); }
  }

  /** A page completes the read exactly when the pages up to it are complete: counting on the way refuses nothing else. */
  lemma DrainsIff(turns: nat -> Turn, columnar: bool, size: (Response, Grid) -> nat, l: Limits, n: nat)
    ensures Drains(turns, columnar, size, l, n) <==> Complete(turns, columnar, size, l, n)
  {
    hide Drains, Complete;
    if Drains(turns, columnar, size, l, n) { DrainsComplete(turns, columnar, size, l, n); }
    if Complete(turns, columnar, size, l, n) { CompleteDrains(turns, columnar, size, l, n); }
  }

  lemma {:induction false} SamePagesSameRows(rowTurns: nat -> Turn, columnTurns: nat -> Turn, n: nat)
    requires forall k :: 0 <= k < n ==> AsRows(PageVectors(columnTurns, true, k), true) == PageVectors(rowTurns, false, k)
    ensures AllRows(columnTurns, true, n) == AllRows(rowTurns, false, n)
  {
    if n > 0 { SamePagesSameRows(rowTurns, columnTurns, n - 1); }
  }

  /** The columnar answer is the transpose of the row answer to the same pages. */
  lemma ColumnarIsTranspose(rowTurns: nat -> Turn, columnTurns: nat -> Turn, size: (Response, Grid) -> nat, l: Limits, n: nat)
    requires Drains(rowTurns, false, size, l, n) && Drains(columnTurns, true, size, l, n)
    requires forall k :: 0 <= k <= n ==> AsRows(PageVectors(columnTurns, true, k), true) == PageVectors(rowTurns, false, k)
    ensures AsRows(Merged(columnTurns, true, n + 1), true) == Merged(rowTurns, false, n + 1)
  {
    DrainExact(rowTurns, false, size, l, n);
    DrainExact(columnTurns, true, size, l, n);
    SamePagesSameRows(rowTurns, columnTurns, n + 1);
    hide Drains, PageVectors;
  }

  /** A read that stops at a page that does not complete it is never completed. */
  lemma NeverDrains(turns: nat -> Turn, columnar: bool, size: (Response, Grid) -> nat, l: Limits, page: nat)
    requires forall k :: 0 <= k < page ==> Continues(turns, columnar, size, l, k)
    requires !Fits(turns, columnar, size, l, page) || (!turns(page).reply.value.done && !turns(page).usable)
    ensures forall n: nat :: !Drains(turns, columnar, size, l, n)
  {
    forall n: nat ensures !Drains(turns, columnar, size, l, n) {
      if n < page {
        assert Continues(turns, columnar, size, l, n);
      } else if n > page {
        assert !Continues(turns, columnar, size, l, page);
      }
    }
  }

  lemma DrainsHere(turns: nat -> Turn, columnar: bool, size: (Response, Grid) -> nat, l: Limits, page: nat)
    requires Drains(turns, columnar, size, l, page)
    ensures forall n: nat :: Drains(turns, columnar, size, l, n) ==> n == page
  {
    forall n: nat | Drains(turns, columnar, size, l, n) ensures n == page { DrainsOnce(turns, columnar, size, l, n, page); }
  }

  /** A later page never has more columns than were gathered: the index into the gathered columns is always valid. */
  lemma InBounds(turns: nat -> Turn, columnar: bool, size: (Response, Grid) -> nat, l: Limits, page: nat)
    requires page > 0 && columnar
    requires forall k :: 0 <= k < page ==> Continues(turns, columnar, size, l, k)
    requires Accepted(turns, columnar, l.rows, page)
    ensures |PageVectors(turns, columnar, page)| <= |Merged(turns, columnar, page)|
  {
    hide Shaped, AllRows, AsRows, Merged;
    assert Continues(turns, columnar, size, l, 0) && Continues(turns, columnar, size, l, page - 1);
    MergedRows(turns, columnar, size, l, page - 1);
    AcceptedHeight(turns, columnar, l.rows, 0);
    AcceptedHeight(turns, columnar, l.rows, page);
  }

  lemma NoRowsYet(turns: nat -> Turn, columnar: bool)
    ensures AllRows(turns, columnar, 0) == []
  { }

  /** What an accepted page adds: its rows to the count, its vectors to the merge, and no new column. */
  lemma PageFacts(turns: nat -> Turn, columnar: bool, size: (Response, Grid) -> nat, l: Limits, page: nat)
    requires forall k :: 0 <= k < page ==> Continues(turns, columnar, size, l, k)
    requires Accepted(turns, columnar, l.rows, page)
    ensures turns(page).reply.Ok? && PageVectors(turns, columnar, page) == Vectors(turns(page).reply.value, columnar)
    ensures |AllRows(turns, columnar, page + 1)|
         == |AllRows(turns, columnar, page)| + Height(PageVectors(turns, columnar, page), columnar)
    ensures Width(turns(page).reply.value, Schema(turns, page)) == Schema(turns, page + 1)
    ensures page > 0 && columnar ==> |PageVectors(turns, columnar, page)| <= |Merged(turns, columnar, page)|
  {
    assert page > 0 ==> Continues(turns, columnar, size, l, 0);
    AcceptedHeight(turns, columnar, l.rows, page);
    if page > 0 && columnar { InBounds(turns, columnar, size, l, page); }
  }

  /** Adding one page: every index into the gathered columns is valid. */
  method MergeVectors(gathered: Grid, values: Grid, columnar: bool) returns (result: Grid)
    requires columnar ==> |values| <= |gathered|
    ensures result == if columnar then Alongside(gathered, values) else gathered + values
  {
    result := gathered;
    if columnar {
      for i := 0 to |values|
        invariant |result| == |gathered|
        invariant forall j :: 0 <= j < |gathered| ==> result[j] == gathered[j] + if j < i then values[j] else []
      {
        result := result[i := result[i] + values[i]];
      }
      assert result == Alongside(gathered, values);
    } else {
      result := result + values;
    }
  }

  // ----- the cursor and the loop

  class SqlCursor {
    const columnar: bool
    var sqlDone: bool
    var lastHits: nat
    var sqlColumns: int
    var released: bool

    constructor (columnar: bool)
      ensures this.columnar == columnar && sqlColumns == -1 && !sqlDone && !released
    {
      this.columnar, sqlColumns, sqlDone, lastHits, released := columnar, -1, false, 0, false;
    }

    /** sqlPage: one request and the checks on its answer. An exhausted cursor is released, so it sends no more. */
    method SqlPage(turn: Turn, first: bool, limit: nat) returns (page: Result<Response>)
      requires !sqlDone
      modifies this
      ensures released == old(released)
      ensures page.Ok? <==> PageGood(turn, columnar, old(sqlColumns), first, limit)
      ensures page.Ok? ==> && page == turn.reply && sqlColumns == Width(page.value, old(sqlColumns))
                           && lastHits == Height(Vectors(page.value, columnar), columnar)
      ensures page.Err? ==> page.code == PageCode(turn, columnar, old(sqlColumns), first, limit)
      ensures sqlDone == (turn.reply.Ok? && turn.reply.value.done)
    {
      if turn.reply.Err? { return turn.reply; }
      var r := turn.reply.value;
      if r.done { sqlDone := true; }
      var shape := ValidateSQLPage(r, columnar, sqlColumns, first, limit);
      if shape.Err? { return Err(shape.code); }
      lastHits, sqlColumns := shape.value.0, shape.value.1;
      if lastHits == 0 && !sqlDone { return Err("invalid_response"); }
      if turn.late { return Err("deadline_exceeded"); }
      return turn.reply;
    }

    /** executeSQL: the read succeeds exactly when some page completes it, and then returns all pages merged. The
        branch after the loop, for too many pages, cannot be reached. A failed read leaves the cursor to the deferred
        recovery. */
    method ExecuteSQL(turns: nat -> Turn, size: (Response, Grid) -> nat, l: Limits) returns (read: Result<Read>)
      requires sqlColumns == -1 && !sqlDone && !released
      modifies this
      ensures read.Ok? <==> exists n: nat :: Drains(turns, columnar, size, l, n)
      ensures forall n: nat :: Drains(turns, columnar, size, l, n)
                ==> read == Ok(Read(turns(0).reply.value, Merged(turns, columnar, n + 1)))
      ensures read.Err? ==> exists n: nat :: Stops(turns, columnar, size, l, n, read.code)
      ensures released == read.Ok?
    {
      hide Shaped, Height, Vectors, AllRows, AsRows, PageVectors, PageGood, PageCode, ShapeCode, WellShaped;
      var result: Grid := [];
      var count, page := 0, 0;
      var envelope := Response(None, false, NoColumns, Absent, Absent);
      assert AllRows(turns, columnar, 0) == [] by { NoRowsYet(turns, columnar); }
      while page <= l.rows
        invariant 0 <= page && !sqlDone && !released
        invariant forall k :: 0 <= k < page ==> Continues(turns, columnar, size, l, k)
        invariant count == |AllRows(turns, columnar, page)| <= l.rows
        invariant sqlColumns == Schema(turns, page)
        invariant page > 0 ==> turns(0).reply == Ok(envelope) && result == Merged(turns, columnar, page)
        decreases l.rows - page
      {
        var raw := SqlPage(turns(page), page == 0, l.rows);
        if raw.Err? {
          NeverDrains(turns, columnar, size, l, page);
          assert Stops(turns, columnar, size, l, page, raw.code);
          return Err(raw.code);
        }
        PageFacts(turns, columnar, size, l, page);
        count := count + lastHits;
        if count > l.rows {
          NeverDrains(turns, columnar, size, l, page);
          assert Stops(turns, columnar, size, l, page, "resource_limit");
          return Err("resource_limit");
        }
        if page == 0 {
          envelope := raw.value;
          result := Vectors(raw.value, columnar);
        } else {
          result := MergeVectors(result, Vectors(raw.value, columnar), columnar);
        }
        if size(envelope, result) > l.bytes {
          NeverDrains(turns, columnar, size, l, page);
          assert Stops(turns, columnar, size, l, page, "resource_limit");
          return Err("resource_limit");
        }
        if sqlDone {
          released := true;
          assert Drains(turns, columnar, size, l, page);
          DrainsHere(turns, columnar, size, l, page);
          return Ok(Read(envelope, result));
        }
        if !turns(page).usable {
          NeverDrains(turns, columnar, size, l, page);
          assert Stops(turns, columnar, size, l, page, "cursor_expired");
          return Err("cursor_expired");
        }
        page := page + 1;
      }
      PagesBringRows(turns, columnar, size, l, page);
      assert false;
    }
  }
}
