/** JSON trees and the text encoding/json prints for them. */
module Json {

  /** A decoded value; object fields are listed in the order in which they are printed.
      Raw stands for json.RawMessage: text that is printed as it is. */
  datatype Json =
    | Null | Bool(b: bool) | Num(text: string) | Str(s: string) | Arr(items: seq<Json>) | Obj(fields: seq<Field>)
    | Raw(raw: string)

  datatype Field = Field(key: string, value: Json)

  const HEX := "0123456789abcdef"

  function Hex4(n: nat): (r: string)
    requires n < 0x10000
    ensures |r| == 4
  {
    [HEX[n / 16 / 16 / 16], HEX[n / 16 / 16 % 16], HEX[n / 16 % 16], HEX[n % 16]]
  }

  /** Printed as \uXXXX: control characters, the HTML characters and the JavaScript line separators. */
  predicate Unicoded(c: char) {
    (c as int < 0x20 && c !in "\n\r\t" && c as int !in [8, 12]) || c in "<>&" || c as int in [0x2028, 0x2029]
  }

  predicate Plain(c: char) {
    !Unicoded(c) && c !in "\"\\\n\r\t" && c as int !in [8, 12]
  }

  function EscapeChar(c: char): string {
    if c == '\"' then "\\\""
    else if c == '\\' then "\\\\"
    else if c == '\n' then "\\n"
    else if c == '\r' then "\\r"
    else if c == '\t' then "\\t"
    else if c as int == 8 then "\\b"
    else if c as int == 12 then "\\f"
    else if Unicoded(c) then "\\u" + Hex4(c as int)
    else [c]
  }

  function Escape(s: string): string {
    if s == "" then "" else EscapeChar(s[0]) + Escape(s[1..])
  }

  const QUOTE := "\""

  function PrintString(s: string): string { QUOTE + Escape(s) + QUOTE }

  function Print(j: Json): string
    decreases j
  {
    match j
    case Null => "null"
    case Bool(b) => if b then "true" else "false"
    case Num(text) => text
    case Str(s) => PrintString(s)
    case Raw(raw) => raw
    case Arr(items) => "[" + PrintItems(items) + "]"
    case Obj(fields) => "{" + PrintFields(fields) + "}"
  }

  function PrintItems(items: seq<Json>): string
    decreases items, 0
  {
    if items == [] then "" else Print(items[0]) + MoreItems(items[1..])
  }

  /** What follows an element: nothing, or a comma and the next ones. */
  function MoreItems(items: seq<Json>): string
    decreases items, 1
  {
    if items == [] then "" else "," + PrintItems(items)
  }

  function PrintFields(fields: seq<Field>): string
    decreases fields, 0
  {
    if fields == [] then "" else PrintString(fields[0].key) + ":" + Print(fields[0].value) + MoreFields(fields[1..])
  }

  function MoreFields(fields: seq<Field>): string
    decreases fields, 1
  {
    if fields == [] then "" else "," + PrintFields(fields)
  }

  predicate NumberChar(c: char) { '0' <= c <= '9' || c in "+-.eE" }

  predicate Digit(c: char) { '0' <= c <= '9' }

  function DropDigits(t: string): (r: string)
    ensures |r| <= |t| && forall i :: 0 <= i < |t| - |r| ==> Digit(t[i])
    ensures r == t[|t| - |r|..]
  {
    if t != "" && Digit(t[0]) then DropDigits(t[1..]) else t
  }

  /** Nothing, or an exponent. */
  predicate Exponent(t: string): (r: bool)
    ensures r ==> forall i :: 0 <= i < |t| ==> NumberChar(t[i])
  {
    t == "" ||
      (t[0] in "eE" &&
       var u := if |t| > 1 && t[1] in "+-" then t[2..] else t[1..];
       u != "" && DropDigits(u) == "")
  }

  /** Nothing, or a fraction, an exponent, or both. */
  predicate Fraction(t: string): (r: bool)
    ensures r ==> forall i :: 0 <= i < |t| ==> NumberChar(t[i])
  {
    if t != "" && t[0] == '.' then |t| > 1 && Digit(t[1]) && Exponent(DropDigits(t[1..])) else Exponent(t)
  }

  predicate Unsigned(t: string): (r: bool)
    ensures r ==> t != "" && Digit(t[0]) && forall i :: 0 <= i < |t| ==> NumberChar(t[i])
  {
    t != "" && Digit(t[0]) && Fraction(if t[0] == '0' then t[1..] else DropDigits(t))
  }

  /** Numbers keep their source text, in the grammar of RFC 8259, section 6. */
  predicate ValidNumber(text: string): (r: bool)
    ensures r ==> text != "" && (Digit(text[0]) || text[0] == '-') && forall i :: 0 <= i < |text| ==> NumberChar(text[i])
  {
    if text != "" && text[0] == '-' then Unsigned(text[1..]) else Unsigned(text)
  }

  predicate Valid(j: Json)
    decreases j
  {
    match j
    case Num(text) => ValidNumber(text)
    case Arr(items) => forall i :: 0 <= i < |items| ==> Valid(items[i])
    case Obj(fields) => forall i :: 0 <= i < |fields| ==> Valid(fields[i].value)
    case Raw(_) => false
    case _ => true
  }

  // ----- what printed text looks like

  /** The letter after the backslash of a two-character escape. */
  function ShortEscape(c: char): char
    requires !Plain(c) && !Unicoded(c)
  {
    if c == '\"' then '\"' else if c == '\\' then '\\' else if c == '\n' then 'n' else if c == '\r' then 'r'
    else if c == '\t' then 't' else if c as int == 8 then 'b' else 'f'
  }

  lemma EscapeShape(c: char)
    ensures Plain(c) ==> EscapeChar(c) == [c] && c != '\\' && c != '\"'
    ensures Unicoded(c) ==> c as int < 0x10000 && EscapeChar(c) == "\\u" + Hex4(c as int) && EscapeChar(c)[1] == 'u' && !Plain(c)
    ensures !Plain(c) && !Unicoded(c) ==> EscapeChar(c) == ['\\', ShortEscape(c)] && ShortEscape(c) != 'u'
  {
    hide Hex4;
  }

  lemma EscapeUnfold(s: string, x: string)
    requires s != ""
    ensures Escape(s) + QUOTE + x == EscapeChar(s[0]) + (Escape(s[1..]) + QUOTE + x)
    ensures EscapeChar(s[0]) != "" && EscapeChar(s[0])[0] != '\"'
  {
    hide EscapeChar, Plain, Unicoded, ShortEscape;
    EscapeShape(s[0]);
  }

  /** What may follow a value. */
  predicate Delimited(rest: string) { rest == "" || rest[0] in ",]}" }

  lemma FirstChar(j: Json)
    requires Valid(j)
    ensures Print(j) != "" && match j
                              case Null => Print(j)[0] == 'n'
                              case Bool(b) => Print(j)[0] == if b then 't' else 'f'
                              case Num(_) => '0' <= Print(j)[0] <= '9' || Print(j)[0] == '-'
                              case Str(_) => Print(j)[0] == '\"'
                              case Raw(_) => false
                              case Arr(_) => Print(j)[0] == '['
                              case Obj(_) => Print(j)[0] == '{'
  { }

  // How printed lists unfold when something follows them.

  lemma ItemsUnfold(a: seq<Json>, x: string)
    ensures PrintItems(a) + ("]" + x) == if a == [] then "]" + x else Print(a[0]) + (MoreItems(a[1..]) + ("]" + x))
  {
    hide Print, MoreItems;
  }

  lemma MoreItemsUnfold(a: seq<Json>, x: string)
    ensures MoreItems(a) + ("]" + x) == if a == [] then "]" + x else "," + (Print(a[0]) + (MoreItems(a[1..]) + ("]" + x)))
  {
    hide PrintItems, Print;
    ItemsUnfold(a, x);
    if a != [] { Assoc(",", PrintItems(a), "]" + x); }
  }

  lemma Assoc(a: string, b: string, c: string)
    ensures (a + b) + c == a + (b + c)
  { }

  /** A field list from just after its first opening quote, up to and beyond the closing brace. */
  function FieldTail(a: seq<Field>, x: string): string
    requires a != []
  {
    Escape(a[0].key) + QUOTE + (":" + (Print(a[0].value) + (MoreFields(a[1..]) + ("}" + x))))
  }

  lemma FieldsUnfold(a: seq<Field>, x: string)
    ensures PrintFields(a) + ("}" + x) == if a == [] then "}" + x else QUOTE + FieldTail(a, x)
  {
    hide Print, Escape, MoreFields;
  }

  lemma MoreFieldsUnfold(a: seq<Field>, x: string)
    ensures MoreFields(a) + ("}" + x) == if a == [] then "}" + x else "," + (QUOTE + FieldTail(a, x))
  {
    hide PrintFields, FieldTail;
    FieldsUnfold(a, x);
    if a != [] { Assoc(",", PrintFields(a), "}" + x); }
  }

  lemma NumberParts(j: Json)
    requires Valid(j) && j.Num?
    ensures ValidNumber(j.text)
  { }

  ghost predicate ValidItems(a: seq<Json>) { forall i :: 0 <= i < |a| ==> Valid(a[i]) }

  ghost predicate ValidFields(a: seq<Field>) { forall i :: 0 <= i < |a| ==> Valid(a[i].value) }

  lemma ItemsParts(j: Json)
    requires Valid(j)
    ensures j.Arr? ==> ValidItems(j.items)
    ensures j.Obj? ==> ValidFields(j.fields)
  { }

  lemma AfterItem(a: seq<Json>, x: string)
    ensures Delimited(MoreItems(a) + ("]" + x))
  {
    hide Print;
    MoreItemsUnfold(a, x);
  }

  lemma AfterField(a: seq<Field>, x: string)
    ensures Delimited(MoreFields(a) + ("}" + x))
  {
    hide FieldTail;
    MoreFieldsUnfold(a, x);
  }

}
