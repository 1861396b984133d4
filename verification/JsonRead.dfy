/** A reader of JSON text after RFC 8259, written without regard to the printer, and what it makes of printed text. */
module JsonRead {
  import opened Common
  import opened Json

  // ----- strings

  function HexDigit(c: char): (r: Option<nat>)
    ensures r.Some? ==> r.value < 16
  {
    if '0' <= c <= '9' then Some(c as int - '0' as int)
    else if 'a' <= c <= 'f' then Some(c as int - 'a' as int + 10)
    else if 'A' <= c <= 'F' then Some(c as int - 'A' as int + 10)
    else None
  }

  /** The value of the four hexadecimal digits in front. */
  function HexCode(t: string): (r: Option<nat>)
    ensures r.Some? ==> |t| >= 4 && r.value < 0x10000
  {
    if |t| < 4 || HexDigit(t[0]).None? || HexDigit(t[1]).None? || HexDigit(t[2]).None? || HexDigit(t[3]).None? then None
    else Some(((HexDigit(t[0]).value * 16 + HexDigit(t[1]).value) * 16 + HexDigit(t[2]).value) * 16 + HexDigit(t[3]).value)
  }

  /** After a backslash and `u`: one code, or the two codes of a surrogate pair. */
  function ReadUnicode(t: string): (r: Option<(char, string)>)
    ensures r.Some? ==> |r.value.1| < |t|
  {
    match HexCode(t)
    case None => None
    case Some(n) =>
      if n < 0xD800 || n >= 0xE000 then Some((n as char, t[4..]))
      else if n < 0xDC00 && |t| >= 6 && t[4] == '\\' && t[5] == 'u' && HexCode(t[6..]).Some?
              && 0xDC00 <= HexCode(t[6..]).value < 0xE000
      then Some(((0x10000 + (n - 0xD800) * 0x400 + (HexCode(t[6..]).value - 0xDC00)) as char, t[10..]))
      else None
  }

  /** The character that a backslash and one letter stand for. */
  function Escaped(c: char): Option<char> {
    if c in "\"\\/" then Some(c)
    else if c == 'b' then Some(8 as char)
    else if c == 'f' then Some(12 as char)
    else if c == 'n' then Some(10 as char)
    else if c == 'r' then Some(13 as char)
    else if c == 't' then Some(9 as char)
    else None
  }

  function ReadChar(t: string): (r: Option<(char, string)>)
    requires t != ""
    ensures r.Some? ==> |r.value.1| < |t|
  {
    if t[0] as int < 0x20 then None
    else if t[0] != '\\' then Some((t[0], t[1..]))
    else if |t| < 2 then None
    else if t[1] == 'u' then ReadUnicode(t[2..])
    else if Escaped(t[1]).Some? then Some((Escaped(t[1]).value, t[2..]))
    else None
  }

  /** A string from just after its opening quote. */
  function ReadString(t: string): (r: Option<(string, string)>)
    ensures r.Some? ==> |r.value.1| < |t|
    decreases |t|
  {
    if t == "" then None
    else if t[0] == '\"' then Some(("", t[1..]))
    else
      match ReadChar(t)
      case None => None
      case Some((c, rest)) =>
        match ReadString(rest)
        case None => None
        case Some((s, after)) => Some(([c] + s, after))
  }

  // ----- values

  predicate Space(c: char) { c in " \t\n\r" }

  function Skip(t: string): (r: string)
    ensures |r| <= |t|
  {
    if t != "" && Space(t[0]) then Skip(t[1..]) else t
  }

  /** How many characters in front can belong to a number. */
  function NumberRun(t: string): (n: nat)
    ensures n <= |t|
  {
    if t != "" && NumberChar(t[0]) then 1 + NumberRun(t[1..]) else 0
  }

  function ReadNumber(t: string): (r: Option<(Json, string)>)
    ensures r.Some? ==> |r.value.1| < |t|
  {
    var n := NumberRun(t);
    if ValidNumber(t[..n]) then Some((Num(t[..n]), t[n..])) else None
  }

  /** A value at the front of the text, and what follows it. */
  function ReadValue(t: string): (r: Option<(Json, string)>)
    ensures r.Some? ==> |r.value.1| < |t|
    decreases |t|, 0
  {
    var u := Skip(t);
    if u == "" then None
    else if u[0] == '\"' then
      match ReadString(u[1..])
      case None => None
      case Some((s, rest)) => Some((Str(s), rest))
    else if u[0] == '[' then
      match ReadArray(u[1..])
      case None => None
      case Some((items, rest)) => Some((Arr(items), rest))
    else if u[0] == '{' then
      match ReadObject(u[1..])
      case None => None
      case Some((fields, rest)) => Some((Obj(fields), rest))
    else if "null" <= u then Some((Null, u[4..]))
    else if "true" <= u then Some((Bool(true), u[4..]))
    else if "false" <= u then Some((Bool(false), u[5..]))
    else ReadNumber(u)
  }

  /** An array from just after its opening bracket. */
  function ReadArray(t: string): (r: Option<(seq<Json>, string)>)
    ensures r.Some? ==> |r.value.1| < |t|
    decreases |t|, 2
  {
    var u := Skip(t);
    if u != "" && u[0] == ']' then Some(([], u[1..])) else ReadItems(t)
  }

  function ReadItems(t: string): (r: Option<(seq<Json>, string)>)
    ensures r.Some? ==> |r.value.1| < |t|
    decreases |t|, 1
  {
    match ReadValue(t)
    case None => None
    case Some((v, rest)) =>
      var u := Skip(rest);
      if u == "" then None
      else if u[0] == ']' then Some(([v], u[1..]))
      else if u[0] != ',' then None
      else
        match ReadItems(u[1..])
        case None => None
        case Some((items, after)) => Some(([v] + items, after))
  }

  /** An object from just after its opening brace. */
  function ReadObject(t: string): (r: Option<(seq<Field>, string)>)
    ensures r.Some? ==> |r.value.1| < |t|
    decreases |t|, 2
  {
    var u := Skip(t);
    if u != "" && u[0] == '}' then Some(([], u[1..])) else ReadFields(t)
  }

  function ReadFields(t: string): (r: Option<(seq<Field>, string)>)
    ensures r.Some? ==> |r.value.1| < |t|
    decreases |t|, 1
  {
    match ReadField(t)
    case None => None
    case Some((f, rest)) =>
      var u := Skip(rest);
      if u == "" then None
      else if u[0] == '}' then Some(([f], u[1..]))
      else if u[0] != ',' then None
      else
        match ReadFields(u[1..])
        case None => None
        case Some((fields, after)) => Some(([f] + fields, after))
  }

  /** A key, a colon and a value. */
  function ReadField(t: string): (r: Option<(Field, string)>)
    ensures r.Some? ==> |r.value.1| < |t|
    decreases |t|, 0
  {
    var u := Skip(t);
    if u == "" || u[0] != '\"' then None
    else
      match ReadString(u[1..])
      case None => None
      case Some((key, rest)) =>
        var v := Skip(rest);
        if v == "" || v[0] != ':' then None
        else
          match ReadValue(v[1..])
          case None => None
          case Some((value, after)) => Some((Field(key, value), after))
  }

  /** A whole text: one value and nothing but space after it. */
  function ReadText(t: string): Option<Json> {
    match ReadValue(t)
    case None => None
    case Some((j, rest)) => if Skip(rest) == "" then Some(j) else None
  }

  // ----- what the reader makes of printed text

  lemma DigitReads(n: nat)
    requires n < 16
    ensures HexDigit(HEX[n]) == Some(n)
  { }

  lemma CodeReads(n: nat, x: string)
    requires n < 0x10000
    ensures HexCode(Hex4(n) + x) == Some(n)
  {
    hide HexDigit;
    DigitReads(n / 16 / 16 / 16);
    DigitReads(n / 16 / 16 % 16);
    DigitReads(n / 16 % 16);
    DigitReads(n % 16);
    var t := Hex4(n) + x;
    assert t[0] == Hex4(n)[0] && t[1] == Hex4(n)[1] && t[2] == Hex4(n)[2] && t[3] == Hex4(n)[3];
  }

  lemma ShortReads(c: char)
    requires !Plain(c) && !Unicoded(c)
    ensures Escaped(ShortEscape(c)) == Some(c)
  { }

  lemma UnicodedRange(c: char)
    requires Unicoded(c)
    ensures c as int < 0xD800
  { }

  lemma PlainVisible(c: char)
    requires Plain(c)
    ensures c as int >= 0x20
  { }

  lemma CharReads(c: char, x: string)
    ensures var t := EscapeChar(c) + x; t != "" && t[0] != '\"' && ReadChar(t) == Some((c, x))
  {
    hide EscapeChar, Plain, Unicoded, ShortEscape, Hex4, HexCode, Escaped;
    EscapeShape(c);
    var t := EscapeChar(c) + x;
    assert t[0] == EscapeChar(c)[0];
    if Plain(c) {
      PlainVisible(c);
      assert t[1..] == x;
    } else if Unicoded(c) {
      UnicodedRange(c);
      CodeReads(c as int, x);
      assert t[1] == 'u' && t[2..] == Hex4(c as int) + x;
      assert (Hex4(c as int) + x)[4..] == x;
    } else {
      ShortReads(c);
      assert t[1] == ShortEscape(c) && t[2..] == x;
    }
  }

  lemma {:induction false} StringReads(s: string, x: string)
    ensures ReadString(Escape(s) + QUOTE + x) == Some((s, x))
  {
    hide ReadChar, EscapeChar;
    if s == "" {
      assert Escape(s) + QUOTE + x == QUOTE + x;
    } else {
      EscapeUnfold(s, x);
      CharReads(s[0], Escape(s[1..]) + QUOTE + x);
      StringReads(s[1..], x);
      assert s == [s[0]] + s[1..];
    }
  }

  lemma {:induction false} RunEnds(text: string, x: string)
    requires Delimited(x) && forall i :: 0 <= i < |text| ==> NumberChar(text[i])
    ensures NumberRun(text + x) == |text|
  {
    if text == "" {
      assert text + x == x;
    } else {
      assert (text + x)[1..] == text[1..] + x;
      RunEnds(text[1..], x);
    }
  }

  lemma NumberReads(text: string, x: string)
    requires ValidNumber(text) && Delimited(x)
    ensures ReadNumber(text + x) == Some((Num(text), x))
  {
    hide ValidNumber;
    NumberShape(text);
    RunEnds(text, x);
    assert (text + x)[..|text|] == text && (text + x)[|text|..] == x;
  }

  lemma NumberShape(text: string)
    requires ValidNumber(text)
    ensures text != "" && (Digit(text[0]) || text[0] == '-') && forall i :: 0 <= i < |text| ==> NumberChar(text[i])
  { }

  /** Printed text starts with no space. */
  lemma NoSpace(j: Json, x: string)
    requires Valid(j)
    ensures Skip(Print(j) + x) == Print(j) + x && (Print(j) + x)[0] == Print(j)[0] && Print(j)[0] != ']'
  {
    hide Print, Valid, Skip;
    FirstChar(j);
    SkipNothing(Print(j) + x);
  }

  /** The reader gives back what was printed, and leaves what follows it. */
  lemma {:induction false} PrintReads(j: Json, x: string)
    requires Valid(j) && Delimited(x)
    ensures ReadValue(Print(j) + x) == Some((j, x))
    decreases j
  {
    hide Valid, PrintItems, PrintFields, Escape, ReadString, ReadArray, ReadObject, ReadNumber, Skip;
    FirstChar(j);
    NoSpace(j, x);
    var t := Print(j) + x;
    match j
    case Str(s) =>
      assert t[1..] == Escape(s) + QUOTE + x;
      StringReads(s, x);
    case Arr(items) =>
      assert t[1..] == PrintItems(items) + ("]" + x);
      ItemsParts(j);
      ArrayReads(items, x);
    case Obj(fields) =>
      assert t[1..] == PrintFields(fields) + ("}" + x);
      ItemsParts(j);
      ObjectReads(fields, x);
    case _ => ScalarReads(j, x);
  }

  lemma ScalarReads(j: Json, x: string)
    requires Valid(j) && Delimited(x) && (j.Null? || j.Bool? || j.Num?)
    ensures ReadValue(Print(j) + x) == Some((j, x))
  {
    hide ReadValue, Valid;
    match j
    case Null => NullReads(x);
    case Bool(b) => BoolReads(b, x);
    case Num(text) =>
      NumberParts(j);
      hide ValidNumber;
      NumReads(text, x);
  }

  lemma NullReads(x: string)
    ensures ReadValue("null" + x) == Some((Null, x))
  {
    hide ReadArray, ReadObject, ReadString, ReadNumber, Skip;
    var t := "null" + x;
    SkipNothing(t);
    assert "null" <= t && t[4..] == x;
  }

  lemma BoolReads(b: bool, x: string)
    ensures ReadValue((if b then "true" else "false") + x) == Some((Bool(b), x))
  {
    hide ReadArray, ReadObject, ReadString, ReadNumber, Skip;
    var text := if b then "true" else "false";
    var t := text + x;
    SkipNothing(t);
    assert t[0] == text[0] && text <= t && t[|text|..] == x;
  }

  lemma NumReads(text: string, x: string)
    requires ValidNumber(text) && Delimited(x)
    ensures ReadValue(text + x) == Some((Num(text), x))
  {
    hide ReadArray, ReadObject, ReadString, ReadNumber, Skip, ValidNumber;
    NumberShape(text);
    hide NumberChar;
    var t := text + x;
    assert t[0] == text[0];
    SkipNothing(t);
    NumberReads(text, x);
  }

  lemma SkipNothing(t: string)
    requires t != "" && !Space(t[0])
    ensures Skip(t) == t
  { }

  lemma {:induction false} ArrayReads(a: seq<Json>, x: string)
    requires ValidItems(a)
    ensures ReadArray(PrintItems(a) + ("]" + x)) == Some((a, x))
    decreases a, 1
  {
    hide Print, PrintItems, MoreItems, ReadItems, Skip;
    ItemsUnfold(a, x);
    if a == [] {
      SkipNothing("]" + x);
    } else {
      NoSpace(a[0], MoreItems(a[1..]) + ("]" + x));
      FirstChar(a[0]);
      ItemsRead(a, x);
    }
  }

  lemma {:induction false} ItemsRead(a: seq<Json>, x: string)
    requires a != [] && ValidItems(a)
    ensures ReadItems(Print(a[0]) + (MoreItems(a[1..]) + ("]" + x))) == Some((a, x))
    decreases a, 0
  {
    hide Print, PrintItems, MoreItems, ReadValue, Skip;
    AfterItem(a[1..], x);
    PrintReads(a[0], MoreItems(a[1..]) + ("]" + x));
    MoreItemsUnfold(a[1..], x);
    SkipNothing(MoreItems(a[1..]) + ("]" + x));
    if |a| == 1 {
      assert a == [a[0]];
    } else {
      ItemsRead(a[1..], x);
      assert a == [a[0]] + a[1..];
    }
  }

  lemma {:induction false} ObjectReads(a: seq<Field>, x: string)
    requires ValidFields(a)
    ensures ReadObject(PrintFields(a) + ("}" + x)) == Some((a, x))
    decreases a, 2
  {
    hide Print, PrintFields, MoreFields, ReadFields, Skip, FieldTail;
    FieldsUnfold(a, x);
    if a == [] {
      SkipNothing("}" + x);
    } else {
      SkipNothing(QUOTE + FieldTail(a, x));
      FieldsRead(a, x);
    }
  }

  lemma {:induction false} FieldsRead(a: seq<Field>, x: string)
    requires a != [] && ValidFields(a)
    ensures ReadFields(QUOTE + FieldTail(a, x)) == Some((a, x))
    decreases a, 1
  {
    hide Print, PrintFields, MoreFields, ReadField, Skip, FieldTail;
    FieldReads(a, x);
    MoreFieldsUnfold(a[1..], x);
    SkipNothing(MoreFields(a[1..]) + ("}" + x));
    if |a| == 1 {
      assert a == [a[0]];
    } else {
      FieldsRead(a[1..], x);
      assert a == [a[0]] + a[1..];
    }
  }

  lemma {:induction false} FieldReads(a: seq<Field>, x: string)
    requires a != [] && ValidFields(a)
    ensures ReadField(QUOTE + FieldTail(a, x)) == Some((a[0], MoreFields(a[1..]) + ("}" + x)))
    decreases a, 0
  {
    hide Print, MoreFields, ReadValue, ReadString, Skip, Escape;
    var rest := Print(a[0].value) + (MoreFields(a[1..]) + ("}" + x));
    var t := QUOTE + FieldTail(a, x);
    SkipNothing(t);
    assert t[1..] == Escape(a[0].key) + QUOTE + (":" + rest);
    StringReads(a[0].key, ":" + rest);
    SkipNothing(":" + rest);
    assert (":" + rest)[1..] == rest;
    AfterField(a[1..], x);
    PrintReads(a[0].value, MoreFields(a[1..]) + ("}" + x));
  }

  /** A printed text reads as the tree it was printed from. */
  lemma TextReads(j: Json)
    requires Valid(j)
    ensures ReadText(Print(j)) == Some(j)
  {
    hide ReadValue, Print;
    PrintReads(j, "");
    assert Print(j) + "" == Print(j);
  }

  /** Unique readability: a printed value, followed by a delimiter, is the print of no other. */
  lemma PrintInjective(a: Json, b: Json, x: string, y: string)
    requires Valid(a) && Valid(b) && Delimited(x) && Delimited(y) && Print(a) + x == Print(b) + y
    ensures a == b && x == y
  {
    hide ReadValue, Print;
    PrintReads(a, x);
    PrintReads(b, y);
  }
}
