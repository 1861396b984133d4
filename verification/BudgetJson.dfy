/** What the sizes of `Budget` measure: the length of the JSON text of a result and of a batch. */
module BudgetJson {
  import opened Json
  import opened Budget

  // ----- numbers in decimal

  const DIGITS := "0123456789"

  function Decimal(n: nat): string { if n < 10 then [DIGITS[n]] else Decimal(n / 10) + [DIGITS[n % 10]] }

  /** The number that a row of digits denotes. */
  function Value(t: string): nat
    requires forall i :: 0 <= i < |t| ==> Digit(t[i])
  {
    if t == "" then 0
    else
      assert Digit(t[|t| - 1]);
      10 * Value(t[..|t| - 1]) + (t[|t| - 1] as int - '0' as int)
  }

  lemma {:induction false} DecimalDenotes(n: nat)
    ensures |Decimal(n)| == Digits(n) && (forall i :: 0 <= i < Digits(n) ==> Digit(Decimal(n)[i]))
    ensures Value(Decimal(n)) == n
  {
    if n >= 10 {
      DecimalDenotes(n / 10);
      assert Decimal(n)[..Digits(n) - 1] == Decimal(n / 10);
    } else {
      assert Decimal(n)[..0] == "";
    }
  }

  // ----- the length of printed lists

  function ItemsLength(items: seq<Json>): nat {
    if items == [] then 0 else ItemsLength(items[..|items| - 1]) + |Print(items[|items| - 1])|
  }

  function FieldLength(f: Field): nat { |PrintString(f.key)| + 1 + |Print(f.value)| }

  function FieldsLength(fields: seq<Field>): nat {
    if fields == [] then 0 else FieldsLength(fields[..|fields| - 1]) + FieldLength(fields[|fields| - 1])
  }

  lemma {:induction false} ItemsFront(items: seq<Json>)
    requires items != []
    ensures ItemsLength(items) == |Print(items[0])| + ItemsLength(items[1..])
  {
    hide Print;
    if |items| > 1 {
      ItemsFront(items[..|items| - 1]);
      assert items[..|items| - 1][1..] == items[1..][..|items| - 2];
    }
  }

  lemma {:induction false} ItemsPrinted(items: seq<Json>)
    ensures |PrintItems(items)| == ItemsLength(items) + if items == [] then 0 else |items| - 1
  {
    hide Print, ItemsLength;
    if items != [] {
      ItemsFront(items);
      ItemsPrinted(items[1..]);
    } else {
      assert ItemsLength(items) == 0 by { NoItems(); }
    }
  }

  lemma NoItems()
    ensures ItemsLength([]) == 0 && FieldsLength([]) == 0
  { }

  lemma {:induction false} FieldsFront(fields: seq<Field>)
    requires fields != []
    ensures FieldsLength(fields) == FieldLength(fields[0]) + FieldsLength(fields[1..])
  {
    hide FieldLength;
    if |fields| > 1 {
      FieldsFront(fields[..|fields| - 1]);
      assert fields[..|fields| - 1][1..] == fields[1..][..|fields| - 2];
    }
  }

  lemma {:induction false} FieldsPrinted(fields: seq<Field>)
    ensures |PrintFields(fields)| == FieldsLength(fields) + if fields == [] then 0 else |fields| - 1
  {
    hide Print, PrintString, FieldsLength;
    if fields != [] {
      FieldsFront(fields);
      FieldsPrinted(fields[1..]);
    } else {
      NoItems();
    }
  }

  lemma {:induction false} FieldsJoin(a: seq<Field>, b: seq<Field>)
    ensures FieldsLength(a + b) == FieldsLength(a) + FieldsLength(b)
  {
    hide FieldLength;
    if b == [] {
      assert a + b == a;
    } else {
      FieldsJoin(a, b[..|b| - 1]);
      assert (a + b)[..|a + b| - 1] == a + b[..|b| - 1];
    }
  }

  lemma ObjectLength(fields: seq<Field>)
    requires fields != []
    ensures |Print(Obj(fields))| == FieldsLength(fields) + |fields| + 1
  {
    hide FieldsLength, PrintFields;
    FieldsPrinted(fields);
  }

  // ----- one result

  /** A query result as it is encoded: the fields before the rows, the rows, their count, the flag, and the fields after. */
  datatype Document = Document(front: seq<Field>, rows: seq<Json>, nilRows: bool, rowCount: nat, truncated: bool, back: seq<Field>)

  function Body(d: Document, rows: Json, count: Json, flag: Json): Json {
    Obj(d.front + [Field("rows", rows), Field("row_count", count), Field("truncated", flag)] + d.back)
  }

  function RowsJson(d: Document): Json { if d.nilRows && d.rows == [] then Null else Arr(d.rows) }

  function Encoded(d: Document): Json { Body(d, RowsJson(d), Num(Decimal(d.rowCount)), Bool(d.truncated)) }

  function Lengths(rows: seq<Json>): (r: seq<nat>)
    ensures |r| == |rows| && forall i :: 0 <= i < |r| ==> r[i] == |Print(rows[i])|
  {
    seq(|rows|, i requires 0 <= i < |rows| => |Print(rows[i])|)
  }

  function Measured(d: Document): Outcome {
    Outcome(Lengths(d.rows), d.rowCount, d.truncated, d.nilRows, |Print(Body(d, Raw(""), Raw(""), Raw("")))|)
  }

  lemma {:induction false} SumLengths(rows: seq<Json>)
    ensures Sum(Lengths(rows)) == ItemsLength(rows)
  {
    hide Print;
    if rows != [] {
      SumLengths(rows[..|rows| - 1]);
      assert Lengths(rows)[..|rows| - 1] == Lengths(rows[..|rows| - 1]);
    }
  }

  lemma RowsLength(d: Document)
    ensures |Print(RowsJson(d))| == RowsSize(Lengths(d.rows), d.nilRows)
  {
    hide PrintItems, ItemsLength, Sum;
    ItemsPrinted(d.rows);
    SumLengths(d.rows);
    NoItems();
  }

  lemma ScalarLengths(n: nat, b: bool)
    ensures |Print(Num(Decimal(n)))| == Digits(n) && |Print(Bool(b))| == BoolSize(b)
  {
    DecimalDenotes(n);
  }

  lemma BodyLength(d: Document, rows: Json, count: Json, flag: Json)
    ensures |Print(Body(d, rows, count, flag))|
            == |Print(Body(d, Raw(""), Raw(""), Raw("")))| + |Print(rows)| + |Print(count)| + |Print(flag)|
  {
    hide Print;
    var a := [Field("rows", rows), Field("row_count", count), Field("truncated", flag)];
    var z := [Field("rows", Raw("")), Field("row_count", Raw("")), Field("truncated", Raw(""))];
    FieldsJoin(d.front + a, d.back);
    FieldsJoin(d.front, a);
    FieldsJoin(d.front + z, d.back);
    FieldsJoin(d.front, z);
    ObjectLength(d.front + a + d.back);
    ObjectLength(d.front + z + d.back);
    ThreeFields(rows, count, flag);
    ThreeFields(Raw(""), Raw(""), Raw(""));
    NothingPrinted();
  }

  lemma NothingPrinted()
    ensures Print(Raw("")) == ""
  { }

  lemma OneField(f: Field)
    ensures FieldsLength([f]) == FieldLength(f)
  {
    assert [f][..0] == [];
  }

  lemma ThreeFields(rows: Json, count: Json, flag: Json)
    ensures FieldsLength([Field("rows", rows), Field("row_count", count), Field("truncated", flag)])
            == |PrintString("rows")| + |PrintString("row_count")| + |PrintString("truncated")| + 3
               + |Print(rows)| + |Print(count)| + |Print(flag)|
  {
    hide Print, PrintString;
    OneField(Field("rows", rows));
    OneField(Field("row_count", count));
    OneField(Field("truncated", flag));
    FieldsJoin([Field("rows", rows)], [Field("row_count", count)]);
    FieldsJoin([Field("rows", rows)] + [Field("row_count", count)], [Field("truncated", flag)]);
    assert [Field("rows", rows)] + [Field("row_count", count)] + [Field("truncated", flag)]
           == [Field("rows", rows), Field("row_count", count), Field("truncated", flag)];
  }

  /** The size of a result is the length of its text. */
  lemma SizeIsLength(d: Document)
    ensures Size(Measured(d)) == |Print(Encoded(d))|
  {
    hide Print, Body, RowsSize, Digits, BoolSize, RowsJson, Decimal;
    BodyLength(d, RowsJson(d), Num(Decimal(d.rowCount)), Bool(d.truncated));
    RowsLength(d);
    ScalarLengths(d.rowCount, d.truncated);
  }

  /** Cutting the measured result is measuring the cut one. */
  lemma CutMeasured(d: Document, n: nat, truncated: bool)
    requires n <= |d.rows|
    ensures Cut(Measured(d), n, truncated) == Measured(d.(rows := d.rows[..n], rowCount := n, truncated := truncated))
  {
    assert Lengths(d.rows)[..n] == Lengths(d.rows[..n]);
  }

  // ----- a batch of results

  /** A batch as it is encoded: fields, the results, fields, the flag, the reason when there is one, and the count. */
  datatype BatchDocument = BatchDocument(
    front: seq<Field>, results: seq<Document>, middle: seq<Field>, truncated: bool, reason: bool, completed: nat)

  const REASON := Field("truncation_reason", Str("result_byte_limit"))

  function BatchBody(d: BatchDocument, results: Json, flag: Json, reason: seq<Field>, count: Json): Json {
    Obj(d.front + [Field("results", results)] + d.middle + [Field("truncated", flag)] + reason + [Field("completed_queries", count)])
  }

  function EncodedAll(results: seq<Document>): (r: seq<Json>)
    ensures |r| == |results| && forall i :: 0 <= i < |r| ==> r[i] == Encoded(results[i])
  {
    seq(|results|, i requires 0 <= i < |results| => Encoded(results[i]))
  }

  function MeasuredAll(results: seq<Document>): (r: seq<Outcome>)
    ensures |r| == |results| && forall i :: 0 <= i < |r| ==> r[i] == Measured(results[i])
  {
    seq(|results|, i requires 0 <= i < |results| => Measured(results[i]))
  }

  function EncodedBatch(d: BatchDocument): Json {
    BatchBody(d, Arr(EncodedAll(d.results)), Bool(d.truncated), if d.reason then [REASON] else [], Num(Decimal(d.completed)))
  }

  function MeasuredBatch(d: BatchDocument): Batch {
    Batch(MeasuredAll(d.results), d.completed, d.truncated, if d.reason then REASON_SIZE else 0,
          |Print(BatchBody(d, Raw(""), Raw(""), [], Raw("")))|)
  }

  lemma {:induction false} ListLength(results: seq<Document>)
    ensures ListSize(MeasuredAll(results)) == |Print(Arr(EncodedAll(results)))|
  {
    hide Print, Size, Encoded, Measured;
    ArrayLength(EncodedAll(results));
    NoItems();
    if results != [] {
      var last := |results| - 1;
      ListLength(results[..last]);
      ArrayLength(EncodedAll(results[..last]));
      assert EncodedAll(results)[..last] == EncodedAll(results[..last]);
      assert MeasuredAll(results)[..last] == MeasuredAll(results[..last]);
      SizeIsLength(results[last]);
    }
  }

  lemma ArrayLength(items: seq<Json>)
    ensures |Print(Arr(items))| == 2 + ItemsLength(items) + if items == [] then 0 else |items| - 1
  {
    hide PrintItems, ItemsLength;
    ItemsPrinted(items);
  }

  lemma BatchBodyLength(d: BatchDocument, results: Json, flag: Json, reason: seq<Field>, count: Json)
    ensures |Print(BatchBody(d, results, flag, reason, count))|
            == |Print(BatchBody(d, Raw(""), Raw(""), [], Raw("")))| + |Print(results)| + |Print(flag)| + |Print(count)|
               + FieldsLength(reason) + |reason|
  {
    hide Print, PrintString;
    BatchFields(d, results, flag, reason, count);
    BatchFields(d, Raw(""), Raw(""), [], Raw(""));
    NothingPrinted();
    NoItems();
  }

  lemma BatchFields(d: BatchDocument, results: Json, flag: Json, reason: seq<Field>, count: Json)
    ensures |Print(BatchBody(d, results, flag, reason, count))|
            == FieldsLength(d.front) + FieldsLength(d.middle) + FieldsLength(reason) + |d.front| + |d.middle| + |reason| + 4
               + FieldLength(Field("results", results)) + FieldLength(Field("truncated", flag))
               + FieldLength(Field("completed_queries", count))
  {
    hide Print, PrintString, FieldLength, FieldsLength;
    var a, b, c := [Field("results", results)], [Field("truncated", flag)], [Field("completed_queries", count)];
    FieldsJoin(d.front, a);
    FieldsJoin(d.front + a, d.middle);
    FieldsJoin(d.front + a + d.middle, b);
    FieldsJoin(d.front + a + d.middle + b, reason);
    FieldsJoin(d.front + a + d.middle + b + reason, c);
    OneField(a[0]);
    OneField(b[0]);
    OneField(c[0]);
    ObjectLength(d.front + a + d.middle + b + reason + c);
  }

  lemma ReasonLength()
    ensures FieldsLength([REASON]) + 1 == REASON_SIZE
  {
    hide PrintString, FieldsLength;
    OneField(REASON);
    KeyLength();
    TextLength();
  }

  predicate Letter(c: char) { 'a' <= c <= 'z' || c == '_' }

  lemma LetterPrints(c: char)
    requires Letter(c)
    ensures EscapeChar(c) == [c]
  { }

  lemma KeyLength()
    ensures |PrintString("truncation_reason")| == 19
  {
    hide PrintString;
    LettersLength("truncation_reason");
  }

  lemma TextLength()
    ensures |PrintString("result_byte_limit")| == 19
  {
    hide PrintString;
    LettersLength("result_byte_limit");
  }

  lemma LettersLength(s: string)
    requires forall i :: 0 <= i < |s| ==> Letter(s[i])
    ensures |PrintString(s)| == |s| + 2
  {
    hide EscapeChar, PrintString, Letter;
    forall i | 0 <= i < |s| ensures EscapeChar(s[i]) == [s[i]] { LetterPrints(s[i]); }
    PlainLength(s);
  }

  lemma {:induction false} PlainLength(s: string)
    requires forall i :: 0 <= i < |s| ==> EscapeChar(s[i]) == [s[i]]
    ensures |PrintString(s)| == |s| + 2 && |Escape(s)| == |s|
  {
    hide EscapeChar;
    if s != "" { PlainLength(s[1..]); }
  }

  /** The size of a batch is the length of its text. */
  lemma BatchSizeIsLength(d: BatchDocument)
    ensures BatchSize(MeasuredBatch(d)) == |Print(EncodedBatch(d))|
  {
    hide Print, BatchBody, Digits, BoolSize, Decimal, FieldsLength, EncodedAll, MeasuredAll, ListSize;
    var reason := if d.reason then [REASON] else [];
    BatchBodyLength(d, Arr(EncodedAll(d.results)), Bool(d.truncated), reason, Num(Decimal(d.completed)));
    ListLength(d.results);
    ScalarLengths(d.completed, d.truncated);
    ReasonLength();
    NoItems();
  }
}
