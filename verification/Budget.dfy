/** Cutting MySQL results down to the response byte limit. */
module Budget {
  // ----- encoded sizes

  /** What matters of a query result: the encoded length of each row, the fields that change, and the rest. */
  datatype Outcome = Outcome(rows: seq<nat>, rowCount: nat, truncated: bool, nilRows: bool, rest: nat)

  function Digits(n: nat): nat { if n < 10 then 1 else 1 + Digits(n / 10) }

  function BoolSize(b: bool): nat { if b then 4 else 5 }

  function Sum(rows: seq<nat>): nat { if rows == [] then 0 else Sum(rows[..|rows| - 1]) + rows[|rows| - 1] }

  /** The rows array: brackets, rows, commas; a nil slice prints as null. */
  function RowsSize(rows: seq<nat>, nilRows: bool): nat {
    if rows == [] then (if nilRows then 4 else 2) else 2 + Sum(rows) + |rows| - 1
  }

  function Size(x: Outcome): nat { x.rest + RowsSize(x.rows, x.nilRows) + Digits(x.rowCount) + BoolSize(x.truncated) }

  ghost predicate WellFormed(x: Outcome) { x.nilRows ==> x.rows == [] }

  /** The first n rows under a given flag. */
  function Cut(x: Outcome, n: nat, truncated: bool): Outcome
    requires n <= |x.rows|
  {
    x.(rows := x.rows[..n], rowCount := n, truncated := truncated)
  }

  lemma {:induction false} DigitsMonotone(m: nat, n: nat)
    requires m <= n
    ensures Digits(m) <= Digits(n)
  {
    if m >= 10 { DigitsMonotone(m / 10, n / 10); }
  }

  /** Fewer rows never print longer. */
  lemma {:induction false} SizeMonotone(x: Outcome, m: nat, n: nat, truncated: bool)
    requires WellFormed(x) && m <= n <= |x.rows|
    ensures Size(Cut(x, m, truncated)) <= Size(Cut(x, n, truncated))
    decreases n - m
  {
    DigitsMonotone(m, n);
    if m < n {
      SizeMonotone(x, m, n - 1, truncated);
      DigitsMonotone(n - 1, n);
      assert x.rows[..n][..n - 1] == x.rows[..n - 1];
    }
  }

  // ----- one result

  /** n is the most rows (at least none) that fit while the flag is still the original one. */
  ghost predicate Longest(x: Outcome, n: nat, maxBytes: nat) {
    && n <= |x.rows|
    && (n > 0 ==> Size(Cut(x, n, x.truncated)) <= maxBytes)
    && forall m :: n < m <= |x.rows| ==> Size(Cut(x, m, x.truncated)) > maxBytes
  }

  /** Either nothing changed, or some first rows are left, counted as such and marked as truncated. */
  ghost predicate Shortened(x: Outcome, y: Outcome) {
    y == x || (y.rows <= x.rows && y.rowCount == |y.rows| && y.truncated && y.nilRows == x.nilRows && y.rest == x.rest)
  }

  class QueryResult {
    const nilRows: bool
    const rest: nat
    var rows: seq<nat>
    var rowCount: nat
    var truncated: bool

    ghost function View(): Outcome
      reads this
    {
      Outcome(rows, rowCount, truncated, nilRows, rest)
    }

    constructor (x: Outcome)
      ensures View() == x
    {
      nilRows, rest, rows, rowCount, truncated := x.nilRows, x.rest, x.rows, x.rowCount, x.truncated;
    }

    method DropRow()
      requires rows != []
      modifies this
      ensures View() == Cut(old(View()), |old(rows)| - 1, true)
    {
      rows := rows[..|rows| - 1];
      rowCount := |rows|;
      truncated := true;
    }

    method EncodedSize() returns (n: nat)
      ensures n == Size(View())
    {
      n := rest + RowsSize(rows, nilRows) + Digits(rowCount) + BoolSize(truncated);
    }
  }

  /** enforceQueryBudget: binary search for the rows that fit, then the truncated flag. */
  method EnforceQueryBudget(result: QueryResult, maxBytes: nat) returns (ok: bool)
    requires WellFormed(result.View())
    modifies result
    ensures Size(old(result.View())) <= maxBytes ==> ok && result.View() == old(result.View())
    ensures Size(old(result.View())) > maxBytes ==>
              && |result.rows| <= |old(result.rows)|
              && result.View() == Cut(old(result.View()), |result.rows|, true)
              && Longest(old(result.View()), |result.rows|, maxBytes)
              && (ok <==> Size(Cut(old(result.View()), 0, true)) <= maxBytes)
    ensures Size(old(result.View())) > maxBytes ==>
              ((exists m :: |result.rows| < m <= |old(result.rows)| && Size(Cut(old(result.View()), m, true)) <= maxBytes)
               <==> MissesByOne(old(result.View()), maxBytes))
    ensures ok ==> Size(result.View()) <= maxBytes
    ensures Shortened(old(result.View()), result.View())
  {
    hide Size, MissesByOne;
    var encoded := result.EncodedSize();
    if encoded <= maxBytes { return true; }
    ghost var x := result.View();
    var all := result.rows;
    var low, high := 0, |all|;
    while low < high
      invariant 0 <= low <= high <= |all| && result.truncated == x.truncated
      invariant low > 0 ==> Size(Cut(x, low, x.truncated)) <= maxBytes
      invariant forall m :: high < m <= |all| ==> Size(Cut(x, m, x.truncated)) > maxBytes
      decreases high - low
    {
      var mid := (low + high + 1) / 2;
      result.rows := all[..mid];
      result.rowCount := mid;
      assert result.View() == Cut(x, mid, x.truncated);
      var candidate := result.EncodedSize();
      if candidate <= maxBytes {
        low := mid;
      } else {
        forall m | mid <= m <= |all| ensures Size(Cut(x, m, x.truncated)) > maxBytes { SizeMonotone(x, mid, m, x.truncated); }
        high := mid - 1;
      }
    }
    result.rows := all[..low];
    result.rowCount := low;
    result.truncated := true;
    assert result.View() == Cut(x, low, true);
    encoded := result.EncodedSize();
    SizeMonotone(x, 0, low, true);
    FlagSize(x, low);
    LosesRowsIff(x, low, maxBytes);
    return encoded <= maxBytes;
  }

  /** Setting the flag saves one byte, or none. */
  lemma FlagSize(x: Outcome, n: nat)
    requires n <= |x.rows|
    ensures Size(Cut(x, n, x.truncated)) == Size(Cut(x, n, true)) + if x.truncated then 0 else 1
  { }

  /** Some row count misses the limit by one byte while the flag is not set. */
  ghost predicate MissesByOne(x: Outcome, maxBytes: nat) {
    !x.truncated && exists m :: 0 < m <= |x.rows| && Size(Cut(x, m, false)) == maxBytes + 1
  }

  /** Rows are lost that would have fit in the form finally sent, if and only if some row count misses the limit by
      exactly the byte that setting the flag saves. */
  lemma LosesRowsIff(x: Outcome, n: nat, maxBytes: nat)
    requires WellFormed(x) && Longest(x, n, maxBytes)
    ensures (exists m :: n < m <= |x.rows| && Size(Cut(x, m, true)) <= maxBytes) <==> MissesByOne(x, maxBytes)
  {
    hide Size;
    if m :| n < m <= |x.rows| && Size(Cut(x, m, true)) <= maxBytes {
      FlagSize(x, m);
      assert Size(Cut(x, m, x.truncated)) > maxBytes;
    }
    if m :| !x.truncated && 0 < m <= |x.rows| && Size(Cut(x, m, false)) == maxBytes + 1 {
      FlagSize(x, m);
      if m <= n {
        SizeMonotone(x, m, n, false);
        assert false;
      }
    }
  }

  /** A result that loses a row it could have kept: 10 + 7 bytes of rows against a limit one byte too low. */
  lemma OneByteShort()
    ensures var x := Outcome([10, 7], 2, false, false, 0);
            && Longest(x, 1, 25) && Size(x) == 26 && MissesByOne(x, 25)
            && Size(Cut(x, 2, true)) <= 25
  {
    var x := Outcome([10, 7], 2, false, false, 0);
    assert x.rows[..2] == x.rows && x.rows[..1] == [10];
    assert Sum([10]) == 10 by { assert [10][..0] == []; }
    assert Sum([10, 7]) == 17 by { assert [10, 7][..1] == [10]; }
    assert Size(Cut(x, 2, false)) == 26;
  }

  // ----- a batch of results

  datatype Batch = Batch(results: seq<Outcome>, completed: nat, truncated: bool, reasonSize: nat, rest: nat)

  const REASON_SIZE := 40  // "truncation_reason":"result_byte_limit",

  function ListSize(results: seq<Outcome>): nat {
    if results == [] then 2 else ListSize(results[..|results| - 1]) + Size(results[|results| - 1]) + if |results| > 1 then 1 else 0
  }

  lemma ListSizeNext(results: seq<Outcome>, i: nat)
    requires i < |results|
    ensures ListSize(results[..i + 1]) == ListSize(results[..i]) + Size(results[i]) + if i > 0 then 1 else 0
  {
    assert results[..i + 1][..i] == results[..i];
  }

  function BatchSize(b: Batch): nat {
    b.rest + ListSize(b.results) + Digits(b.completed) + BoolSize(b.truncated) + b.reasonSize
  }

  function Marked(b: Batch): Batch { b.(truncated := true, reasonSize := REASON_SIZE) }

  /** One turn of the loop: the last result loses its last row, or goes when it has none. */
  function Trim(b: Batch): Batch
    requires b.results != []
  {
    var k := |b.results| - 1;
    var last := b.results[k];
    Marked(if last.rows != [] then b.(results := b.results[..k] + [Cut(last, |last.rows| - 1, true)])
           else b.(results := b.results[..k], completed := k))
  }

  /** (k, r) names a way to cut b. */
  ghost predicate Choice(b: Batch, k: nat, r: nat) { k <= |b.results| && if k == 0 then r == 0 else r <= |b.results[k - 1].rows| }

  /** The batch with its first k results, the last of them cut to r rows. */
  ghost function Kept(b: Batch, k: nat, r: nat): Batch
    requires Choice(b, k, r)
  {
    if k == |b.results| && (k == 0 || r == |b.results[k - 1].rows|) then b
    else
      var c := if k == 0 then b.(results := [])
               else if r == |b.results[k - 1].rows| then b.(results := b.results[..k])
               else b.(results := b.results[..k - 1] + [Cut(b.results[k - 1], r, true)]);
      Marked(c.(completed := if k == |b.results| then b.completed else k))
  }

  ghost predicate Larger(k: nat, r: nat, k': nat, r': nat) { k > k' || (k == k' && r > r') }

  /** The row count of the k-th result, counting from one. */
  ghost function RowsOf(b: Batch, k: nat): nat
    requires k <= |b.results|
  {
    if k == 0 then 0 else |b.results[k - 1].rows|
  }

  /** The counts that a batch reports are those of what it holds. */
  ghost predicate Counted(b: Batch) {
    b.completed == |b.results| && forall i :: 0 <= i < |b.results| ==> b.results[i].rowCount == |b.results[i].rows|
  }

  /** Whatever is cut, the first k results are left, all but the last as they were and the last with its first rows; what
      was cut is marked, and the counts still agree. */
  lemma KeptIsHonest(b: Batch, k: nat, r: nat)
    requires Choice(b, k, r)
    ensures var c := Kept(b, k, r);
            && |c.results| == k && (forall i :: 0 <= i < k - 1 ==> c.results[i] == b.results[i])
            && (k > 0 ==> |c.results[k - 1].rows| == r && Shortened(b.results[k - 1], c.results[k - 1]))
            && (c != b ==> c.truncated) && c.rest == b.rest
            && (Counted(b) ==> Counted(c))
  { }

  lemma TrimKept(b: Batch, k: nat, r: nat)
    requires Choice(b, k, r) && k > 0
    ensures r > 0 ==> Choice(b, k, r - 1)
    ensures Choice(b, k - 1, RowsOf(b, k - 1))
    ensures r > 0 ==> Trim(Kept(b, k, r)) == Kept(b, k, r - 1)
    ensures r == 0 ==> Trim(Kept(b, k, r)) == Kept(b, k - 1, RowsOf(b, k - 1))
  {
    var c := Kept(b, k, r);
    assert b.results[..|b.results|] == b.results;
    assert |c.results| == k && c.results[..k - 1] == b.results[..k - 1] && |c.results[k - 1].rows| == r;
    if r > 0 {
      assert c.results[k - 1].rows[..r - 1] == b.results[k - 1].rows[..r - 1];
    } else {
      assert k > 1 ==> b.results[..k - 1] == b.results[..k - 2] + [b.results[k - 2]];
    }
  }

  /** Every larger way to cut b misses the limit. */
  ghost predicate NoneLarger(b: Batch, maxBytes: nat, k: nat, r: nat) {
    forall i: nat, j: nat :: Choice(b, i, j) && Larger(i, j, k, r) ==> BatchSize(Kept(b, i, j)) > maxBytes
  }

  ghost predicate NoneFits(b: Batch, maxBytes: nat) {
    forall i: nat, j: nat :: Choice(b, i, j) ==> BatchSize(Kept(b, i, j)) > maxBytes
  }

  /** c is b cut no further than the limit demands. */
  ghost predicate LargestThatFits(b: Batch, maxBytes: nat, c: Batch) {
    && BatchSize(c) <= maxBytes
    && exists k: nat, r: nat :: Choice(b, k, r) && c == Kept(b, k, r) && NoneLarger(b, maxBytes, k, r)
  }

  /** At most one batch is the largest that fits, and there is none when nothing fits. */
  lemma LargestUnique(b: Batch, maxBytes: nat, c: Batch, d: Batch)
    requires LargestThatFits(b, maxBytes, c)
    ensures !NoneFits(b, maxBytes)
    ensures LargestThatFits(b, maxBytes, d) ==> c == d
  {
    hide BatchSize, Kept;
    var k: nat, r: nat :| Choice(b, k, r) && c == Kept(b, k, r) && NoneLarger(b, maxBytes, k, r);
    if LargestThatFits(b, maxBytes, d) {
      var i: nat, j: nat :| Choice(b, i, j) && d == Kept(b, i, j) && NoneLarger(b, maxBytes, i, j);
      assert !Larger(k, r, i, j) && !Larger(i, j, k, r);
    }
  }

  /** The counts of the largest batch that fits are those of what it holds, and it says so when something is missing. */
  lemma LargestIsHonest(b: Batch, maxBytes: nat, c: Batch)
    requires LargestThatFits(b, maxBytes, c) && Counted(b)
    ensures Counted(c) && |c.results| <= |b.results| && (c != b ==> c.truncated)
    ensures forall i :: 0 <= i < |c.results| ==> Shortened(b.results[i], c.results[i])
  {
    hide BatchSize, Kept, NoneLarger, Counted, Shortened;
    var k: nat, r: nat :| Choice(b, k, r) && c == Kept(b, k, r) && NoneLarger(b, maxBytes, k, r);
    KeptIsHonest(b, k, r);
    forall i | 0 <= i < k - 1 ensures Shortened(b.results[i], c.results[i]) { SameShortened(b.results[i]); }
  }

  lemma SameShortened(x: Outcome)
    ensures Shortened(x, x)
  { }

  lemma StartsWhole(b: Batch, maxBytes: nat)
    ensures var k := |b.results|;
            && Choice(b, k, RowsOf(b, k)) && Kept(b, k, RowsOf(b, k)) == b && NoneLarger(b, maxBytes, k, RowsOf(b, k))
  { }

  lemma NextCandidate(b: Batch, maxBytes: nat, k: nat, r: nat)
    requires Choice(b, k, r) && NoneLarger(b, maxBytes, k, r) && BatchSize(Kept(b, k, r)) > maxBytes
    ensures r > 0 ==> NoneLarger(b, maxBytes, k, r - 1)
    ensures r == 0 && k > 0 ==> NoneLarger(b, maxBytes, k - 1, RowsOf(b, k - 1))
    ensures k == 0 ==> NoneFits(b, maxBytes)
  {
    hide Kept, BatchSize;
  }

  lemma EmptyTooLong(b: Batch, maxBytes: nat, k: nat, r: nat)
    requires Choice(b, k, r) && NoneLarger(b, maxBytes, k, r) && BatchSize(Kept(b, k, r)) > maxBytes
    requires Kept(b, k, r).results == []
    ensures NoneFits(b, maxBytes)
  {
    assert k == 0 by { hide BatchSize; }
    NextCandidate(b, maxBytes, k, r);
  }

  /** When a cut is too long, trimming it gives the next smaller cut. */
  lemma Advance(b: Batch, maxBytes: nat, k: nat, r: nat) returns (k': nat, r': nat)
    requires Choice(b, k, r) && NoneLarger(b, maxBytes, k, r) && BatchSize(Kept(b, k, r)) > maxBytes
    requires Kept(b, k, r).results != []
    ensures k' < k || (k' == k && r' < r)
    ensures Choice(b, k', r') && NoneLarger(b, maxBytes, k', r') && Kept(b, k', r') == Trim(Kept(b, k, r))
  {
    assert k > 0 by { hide BatchSize; }
    TrimKept(b, k, r);
    NextCandidate(b, maxBytes, k, r);
    hide BatchSize, Trim, Kept, NoneLarger;
    if r > 0 { k', r' := k, r - 1; } else { k', r' := k - 1, RowsOf(b, k - 1); }
  }

  lemma TrimFields(b: Batch)
    requires b.results != []
    ensures var k := |b.results| - 1; var last := b.results[k];
            && Trim(b).results == b.results[..k] + (if last.rows != [] then [Cut(last, |last.rows| - 1, true)] else [])
            && Trim(b).completed == (if last.rows != [] then b.completed else k)
            && Trim(b).truncated && Trim(b).reasonSize == REASON_SIZE && Trim(b).rest == b.rest
  {
    hide Cut;
  }

  ghost function Views(results: seq<QueryResult>): (v: seq<Outcome>)
    reads results
    ensures |v| == |results|
    ensures forall i :: 0 <= i < |v| ==> v[i] == results[i].View()
  {
    if results == [] then [] else Views(results[..|results| - 1]) + [results[|results| - 1].View()]
  }

  class BatchResult {
    const rest: nat
    var results: seq<QueryResult>
    var completedQueries: nat
    var truncated: bool
    var reasonSize: nat

    constructor (rest: nat)
      ensures this.rest == rest && results == [] && completedQueries == 0 && !truncated && reasonSize == 0
    {
      this.rest, results, completedQueries, truncated, reasonSize := rest, [], 0, false, 0;
    }

    ghost predicate Valid()
      reads this
    {
      forall i, j :: 0 <= i < j < |results| ==> results[i] != results[j]
    }

    ghost function View(): Batch
      reads this, results
    {
      Batch(Views(results), completedQueries, truncated, reasonSize, rest)
    }

    method EncodedSize() returns (n: nat)
      ensures n == BatchSize(View())
    {
      hide Size, Digits, RowsSize;
      n := 2;
      var i := 0;
      ghost var views := Views(results);
      while i < |results|
        invariant 0 <= i <= |views| && n == ListSize(views[..i])
      {
        var size := results[i].EncodedSize();
        n := n + size + if i > 0 then 1 else 0;
        ListSizeNext(views, i);
        i := i + 1;
      }
      assert views[..i] == views;
      n := rest + n + Digits(completedQueries) + BoolSize(truncated) + reasonSize;
    }

    /** One turn of the loop, on the objects. */
    method DropLast()
      requires Valid() && results != []
      modifies this, results[|results| - 1]
      ensures Valid() && results <= old(results)
      ensures View() == Trim(old(View()))
    {
      hide Cut, Trim, Views;
      ghost var b := View();
      TrimFields(b);
      var k := |results| - 1;
      var last := results[k];
      if |last.rows| > 0 {
        last.DropRow();
        assert Views(results) == b.results[..k] + [last.View()];
      } else {
        results := results[..k];
        completedQueries := |results|;
        assert Views(results) == b.results[..k];
      }
      truncated := true;
      reasonSize := REASON_SIZE;
    }

    /** enforceBatchBudget: what is left is the largest cut that fits, every result but the last whole and the last
        one a row prefix; it fails exactly when no cut fits. */
    method EnforceBatchBudget(maxBytes: nat) returns (ok: bool)
      requires Valid()
      modifies this, results
      ensures Valid()
      ensures ok ==> LargestThatFits(old(View()), maxBytes, View())
      ensures !ok ==> NoneFits(old(View()), maxBytes)
    {
      ghost var b := View();
      ghost var k: nat, r: nat := |results|, RowsOf(b, |results|);
      StartsWhole(b, maxBytes);
      hide BatchSize, Trim, Kept, NoneLarger, Choice, RowsOf;
      while true
        invariant Valid() && forall i :: 0 <= i < |results| ==> results[i] in old(results)
        invariant Choice(b, k, r) && NoneLarger(b, maxBytes, k, r) && View() == Kept(b, k, r)
        decreases k, r
      {
        var size := EncodedSize();
        if size <= maxBytes {
          assert LargestThatFits(b, maxBytes, View());
          return true;
        }
        if |results| == 0 {
          EmptyTooLong(b, maxBytes, k, r);
          return false;
        }
        k, r := Advance(b, maxBytes, k, r);
        DropLast();
      }
    }
  }
}
