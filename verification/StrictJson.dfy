/** The strict JSON walker: unique keys, bounded depth and bounded size before anything is decoded into types. */
module StrictJson {
  import opened Common

  // ----- documents

  /** What a JSON text consists of. Unread is text no JSON value starts with. */
  datatype Lexeme = LBrace | RBrace | LBracket | RBracket | Comma | Colon | Text(s: string) | Scalar | Unread

  datatype Tree = Leaf | Str(s: string) | Arr(items: Items) | Obj(members: Members)

  datatype Items = NoItems | Item(item: Tree, others: Items)

  datatype Members = NoMembers | Member(key: string, value: Tree, rest: Members)

  function Write(t: Tree): seq<Lexeme> {
    match t
    case Leaf => [Scalar]
    case Str(s) => [Text(s)]
    case Arr(items) => [LBracket] + WriteItems(items, true)
    case Obj(members) => [LBrace] + WriteMembers(members, true)
  }

  /** The elements still to be written and the closing bracket. */
  function WriteItems(items: Items, first: bool): seq<Lexeme> {
    match items
    case NoItems => [RBracket]
    case Item(v, others) => Separator(first) + Write(v) + WriteItems(others, false)
  }

  function WriteMembers(members: Members, first: bool): seq<Lexeme> {
    match members
    case NoMembers => [RBrace]
    case Member(key, v, rest) => Separator(first) + [Text(key), Colon] + Write(v) + WriteMembers(rest, false)
  }

  function Separator(first: bool): seq<Lexeme> { if first then [] else [Comma] }

  /** How deep the deepest value lies below the root. */
  function Height(t: Tree): nat {
    match t
    case Leaf => 0
    case Str(_) => 0
    case Arr(items) => ItemsHeight(items)
    case Obj(members) => MembersHeight(members)
  }

  function ItemsHeight(items: Items): nat {
    match items
    case NoItems => 0
    case Item(v, others) => Max(1 + Height(v), ItemsHeight(others))
  }

  function MembersHeight(members: Members): nat {
    match members
    case NoMembers => 0
    case Member(_, v, rest) => Max(1 + Height(v), MembersHeight(rest))
  }

  /** The number of values, the root included. */
  function Size(t: Tree): nat {
    match t
    case Leaf => 1
    case Str(_) => 1
    case Arr(items) => 1 + ItemsSize(items)
    case Obj(members) => 1 + MembersSize(members)
  }

  function ItemsSize(items: Items): nat {
    match items
    case NoItems => 0
    case Item(v, others) => Size(v) + ItemsSize(others)
  }

  function MembersSize(members: Members): nat {
    match members
    case NoMembers => 0
    case Member(_, v, rest) => Size(v) + MembersSize(rest)
  }

  datatype Limits = Limits(depth: int, nodes: int, scalar: int)

  predicate ShortText(s: string, l: Limits) { l.scalar > 0 ==> |s| <= l.scalar }

  function Keys(members: Members): set<string> {
    match members
    case NoMembers => {}
    case Member(key, _, rest) => {key} + Keys(rest)
  }

  /** No object has a key twice and no string is too long. */
  predicate Proper(t: Tree, l: Limits) {
    match t
    case Leaf => true
    case Str(s) => ShortText(s, l)
    case Arr(items) => ProperItems(items, l)
    case Obj(members) => ProperMembers(members, l)
  }

  predicate ProperItems(items: Items, l: Limits) {
    match items
    case NoItems => true
    case Item(v, others) => Proper(v, l) && ProperItems(others, l)
  }

  predicate ProperMembers(members: Members, l: Limits) {
    match members
    case NoMembers => true
    case Member(key, v, rest) => ShortText(key, l) && key !in Keys(rest) && Proper(v, l) && ProperMembers(rest, l)
  }

  /** The document is one value within the limits. */
  ghost predicate Strict(document: seq<Lexeme>, l: Limits) {
    exists t :: document == Write(t) && Proper(t, l) && Height(t) <= l.depth && Size(t) <= l.nodes
  }

  // ----- the walker as a function of the lexemes left

  type Read = Result<(seq<Lexeme>, nat)>

  predicate Closes(x: Lexeme) { x.RBrace? || x.RBracket? }

  /** One value after the separator that must precede it; the lexemes after it and the values counted so far. */
  function Value(ls: seq<Lexeme>, separator: seq<Lexeme>, depth: nat, nodes: nat, l: Limits): (r: Read)
    requires |separator| <= 1
    ensures r.Ok? ==> |r.value.0| < |ls|
    decreases |ls|, 0
  {
    if depth > l.depth || nodes + 1 > l.nodes then Err("resource_limit")
    else if !(separator <= ls) || |ls| == |separator| then Err("invalid_response")
    else
      var x, after := ls[|separator|], ls[|separator| + 1..];
      match x
      case Scalar => Ok((after, nodes + 1))
      case Text(s) => if ShortText(s, l) then Ok((after, nodes + 1)) else Err("resource_limit")
      case LBracket => Entries(after, true, depth, nodes + 1, l)
      case LBrace => Fields(after, true, {}, depth, nodes + 1, l)
      case _ => Err("invalid_response")
  }

  function Entries(ls: seq<Lexeme>, first: bool, depth: nat, nodes: nat, l: Limits): (r: Read)
    ensures r.Ok? ==> |r.value.0| < |ls|
    decreases |ls|, 1
  {
    if ls == [] then Err("invalid_response")
    else if Closes(ls[0]) then (if ls[0].RBracket? then Ok((ls[1..], nodes)) else Err("invalid_response"))
    else
      var read := Value(ls, Separator(first), depth + 1, nodes, l);
      if read.Err? then read else Entries(read.value.0, false, depth, read.value.1, l)
  }

  function Fields(ls: seq<Lexeme>, first: bool, keys: set<string>, depth: nat, nodes: nat, l: Limits): (r: Read)
    ensures r.Ok? ==> |r.value.0| < |ls|
    decreases |ls|, 1
  {
    if ls == [] then Err("invalid_response")
    else if Closes(ls[0]) then (if ls[0].RBrace? then Ok((ls[1..], nodes)) else Err("invalid_response"))
    else
      var separator := Separator(first);
      if !(separator <= ls) || |ls| == |separator| || !ls[|separator|].Text? then Err("invalid_response")
      else
        var key := ls[|separator|].s;
        if !ShortText(key, l) then Err("resource_limit")
        else if key in keys then Err("invalid_response")
        else
          var read := Value(ls[|separator| + 1..], [Colon], depth + 1, nodes, l);
          if read.Err? then read else Fields(read.value.0, false, keys + {key}, depth, read.value.1, l)
  }

  // ----- what is written is read back

  /** The value may stand at this depth after this many others. */
  predicate ValueFits(t: Tree, depth: nat, nodes: nat, l: Limits) {
    Proper(t, l) && depth + Height(t) <= l.depth && nodes + Size(t) <= l.nodes
  }

  predicate ItemsFit(items: Items, depth: nat, nodes: nat, l: Limits) {
    items.Item? ==> ProperItems(items, l) && depth + ItemsHeight(items) <= l.depth && nodes + ItemsSize(items) <= l.nodes
  }

  predicate MembersFit(members: Members, keys: set<string>, depth: nat, nodes: nat, l: Limits) {
    members.Member? ==> && ProperMembers(members, l) && Keys(members) !! keys
                        && depth + MembersHeight(members) <= l.depth && nodes + MembersSize(members) <= l.nodes
  }

  lemma ItemsFitCons(v: Tree, others: Items, depth: nat, nodes: nat, l: Limits)
    ensures ItemsFit(Item(v, others), depth, nodes, l)
       <==> ValueFits(v, depth + 1, nodes, l) && ItemsFit(others, depth, nodes + Size(v), l)
  {
    hide Height, Proper;
    if others.NoItems? { assert ProperItems(others, l) && ItemsHeight(others) == 0 && ItemsSize(others) == 0; }
  }

  lemma MembersFitCons(key: string, v: Tree, rest: Members, keys: set<string>, depth: nat, nodes: nat, l: Limits)
    ensures MembersFit(Member(key, v, rest), keys, depth, nodes, l)
       <==> ShortText(key, l) && key !in keys && ValueFits(v, depth + 1, nodes, l)
            && MembersFit(rest, keys + {key}, depth, nodes + Size(v), l)
  {
    hide Height, Proper;
    if rest.NoMembers? { assert ProperMembers(rest, l) && MembersHeight(rest) == 0 && MembersSize(rest) == 0; }
    assert Keys(Member(key, v, rest)) !! keys <==> key !in keys && Keys(rest) !! keys;
    assert Keys(rest) !! keys + {key} <==> Keys(rest) !! keys && key !in Keys(rest);
  }

  lemma ContainerFits(items: Items, members: Members, depth: nat, nodes: nat, l: Limits)
    ensures ValueFits(Arr(items), depth, nodes, l)
       <==> depth <= l.depth && nodes + 1 <= l.nodes && ItemsFit(items, depth, nodes + 1, l)
    ensures ValueFits(Obj(members), depth, nodes, l)
       <==> depth <= l.depth && nodes + 1 <= l.nodes && MembersFit(members, {}, depth, nodes + 1, l)
  {
    if items.NoItems? { assert ProperItems(items, l) && ItemsHeight(items) == 0 && ItemsSize(items) == 0; }
    if members.NoMembers? { assert ProperMembers(members, l) && MembersHeight(members) == 0 && MembersSize(members) == 0; }
  }

  lemma Prefixed(separator: seq<Lexeme>, x: Lexeme, after: seq<Lexeme>)
    ensures var ls := separator + ([x] + after);
            separator <= ls && |ls| > |separator| && ls[|separator|] == x && ls[|separator| + 1..] == after
  { }

  /** How Value goes on from the first lexeme. */
  lemma ValueNext(separator: seq<Lexeme>, x: Lexeme, after: seq<Lexeme>, depth: nat, nodes: nat, l: Limits)
    requires |separator| <= 1
    ensures Value(separator + ([x] + after), separator, depth, nodes, l)
         == (if depth > l.depth || nodes + 1 > l.nodes then Err("resource_limit")
             else match x
               case Scalar => Ok((after, nodes + 1))
               case Text(s) => if ShortText(s, l) then Ok((after, nodes + 1)) else Err("resource_limit")
               case LBracket => Entries(after, true, depth, nodes + 1, l)
               case LBrace => Fields(after, true, {}, depth, nodes + 1, l)
               case _ => Err("invalid_response"))
  {
    Prefixed(separator, x, after);
    hide Entries, Fields;
  }

  lemma ElementsNext(x: seq<Lexeme>, first: bool, depth: nat, nodes: nat, l: Limits)
    requires x != [] && !Closes(x[0])
    ensures Entries(Separator(first) + x, first, depth, nodes, l)
         == (var read := Value(Separator(first) + x, Separator(first), depth + 1, nodes, l);
             if read.Err? then read else Entries(read.value.0, false, depth, read.value.1, l))
  {
    var ls := Separator(first) + x;
    assert ls[0] == if first then x[0] else Comma;
    hide Value;
  }

  lemma FieldsNext(key: string, x: seq<Lexeme>, first: bool, keys: set<string>, depth: nat, nodes: nat, l: Limits)
    ensures Fields(Separator(first) + ([Text(key)] + x), first, keys, depth, nodes, l)
         == (if !ShortText(key, l) then Err("resource_limit")
             else if key in keys then Err("invalid_response")
             else
               var read := Value(x, [Colon], depth + 1, nodes, l);
               if read.Err? then read else Fields(read.value.0, false, keys + {key}, depth, read.value.1, l))
  {
    Prefixed(Separator(first), Text(key), x);
    var ls := Separator(first) + ([Text(key)] + x);
    assert ls[0] == if first then Text(key) else Comma;
    hide Value;
  }

  lemma ContainerEnds(first: bool, keys: set<string>, tail: seq<Lexeme>, depth: nat, nodes: nat, l: Limits)
    ensures Entries(WriteItems(NoItems, first) + tail, first, depth, nodes, l) == Ok((tail, nodes + ItemsSize(NoItems)))
    ensures Fields(WriteMembers(NoMembers, first) + tail, first, keys, depth, nodes, l)
         == Ok((tail, nodes + MembersSize(NoMembers)))
    ensures ItemsFit(NoItems, depth, nodes, l) && MembersFit(NoMembers, keys, depth, nodes, l)
  {
    assert ([RBracket] + tail)[1..] == tail && ([RBrace] + tail)[1..] == tail;
    hide Value;
  }

  /** Nothing that starts a value closes a container. */
  lemma WriteStarts(t: Tree)
    ensures Write(t) != [] && !Closes(Write(t)[0])
  { }

  lemma Regroup(a: seq<Lexeme>, b: seq<Lexeme>, c: seq<Lexeme>, tail: seq<Lexeme>)
    ensures a + b + c + tail == a + (b + (c + tail))
  { }

  lemma ItemText(v: Tree, others: Items, first: bool, tail: seq<Lexeme>)
    ensures WriteItems(Item(v, others), first) + tail == Separator(first) + (Write(v) + (WriteItems(others, false) + tail))
  {
    Regroup(Separator(first), Write(v), WriteItems(others, false), tail);
    hide Write, Separator;
  }

  lemma MemberText(key: string, v: Tree, rest: Members, first: bool, tail: seq<Lexeme>)
    ensures WriteMembers(Member(key, v, rest), first) + tail
         == Separator(first) + ([Text(key)] + ([Colon] + (Write(v) + (WriteMembers(rest, false) + tail))))
  {
    var s, w, r := Separator(first), Write(v), WriteMembers(rest, false);
    hide Write, Separator;
    Regroup(s + [Text(key), Colon], w, r, tail);
    KeyText(s, Text(key), w + (r + tail));
  }

  lemma KeyText(s: seq<Lexeme>, key: Lexeme, x: seq<Lexeme>)
    ensures s + [key, Colon] + x == s + ([key] + ([Colon] + x))
  { }

  lemma ContainerText(items: Items, members: Members, tail: seq<Lexeme>)
    ensures Write(Arr(items)) + tail == [LBracket] + (WriteItems(items, true) + tail)
    ensures Write(Obj(members)) + tail == [LBrace] + (WriteMembers(members, true) + tail)
  {
    hide WriteItems, WriteMembers;
  }

  lemma LeafFits(t: Tree, depth: nat, nodes: nat, l: Limits)
    requires t.Leaf? || t.Str?
    ensures ValueFits(t, depth, nodes, l) <==> depth <= l.depth && nodes + 1 <= l.nodes && (t.Str? ==> ShortText(t.s, l))
    ensures Size(t) == 1 && Write(t) == [if t.Str? then Text(t.s) else Scalar]
  { }

  lemma {:induction false} ValueWritten(t: Tree, separator: seq<Lexeme>, tail: seq<Lexeme>, depth: nat, nodes: nat, l: Limits)
    requires |separator| <= 1
    ensures var r := Value(separator + (Write(t) + tail), separator, depth, nodes, l);
            && (r.Ok? <==> ValueFits(t, depth, nodes, l))
            && (r.Ok? ==> r.value == (tail, nodes + Size(t)))
    decreases t
  {
    SizeOf(t);
    hide Value, Entries, Fields, Write, WriteItems, WriteMembers, Size, ValueFits, ItemsFit, MembersFit;
    match t
    case Leaf =>
      LeafFits(t, depth, nodes, l);
      ValueNext(separator, Scalar, tail, depth, nodes, l);
    case Str(s) =>
      LeafFits(t, depth, nodes, l);
      ValueNext(separator, Text(s), tail, depth, nodes, l);
    case Arr(items) =>
      ContainerText(items, NoMembers, tail);
      ValueNext(separator, LBracket, WriteItems(items, true) + tail, depth, nodes, l);
      ItemsWritten(items, true, tail, depth, nodes + 1, l);
      ContainerFits(items, NoMembers, depth, nodes, l);
    case Obj(members) =>
      ContainerText(NoItems, members, tail);
      ValueNext(separator, LBrace, WriteMembers(members, true) + tail, depth, nodes, l);
      MembersWritten(members, true, {}, tail, depth, nodes + 1, l);
      ContainerFits(NoItems, members, depth, nodes, l);
  }

  lemma SizeOf(t: Tree)
    ensures t.Arr? ==> Size(t) == 1 + ItemsSize(t.items)
    ensures t.Obj? ==> Size(t) == 1 + MembersSize(t.members)
  { }

  lemma SizeCons(items: Items, members: Members)
    ensures items.Item? ==> ItemsSize(items) == Size(items.item) + ItemsSize(items.others)
    ensures members.Member? ==> MembersSize(members) == Size(members.value) + MembersSize(members.rest)
  { }

  lemma {:induction false} ItemsWritten(items: Items, first: bool, tail: seq<Lexeme>, depth: nat, nodes: nat, l: Limits)
    ensures var r := Entries(WriteItems(items, first) + tail, first, depth, nodes, l);
            && (r.Ok? <==> ItemsFit(items, depth, nodes, l))
            && (r.Ok? ==> r.value == (tail, nodes + ItemsSize(items)))
    decreases items
  {
    SizeCons(items, NoMembers);
    hide *;
    match items
    case NoItems => ContainerEnds(first, {}, tail, depth, nodes, l);
    case Item(v, others) =>
      var after := WriteItems(others, false) + tail;
      ItemText(v, others, first, tail);
      WriteStarts(v);
      SeparatorShort(first);
      ElementsNext(Write(v) + after, first, depth, nodes, l);
      ItemsFitCons(v, others, depth, nodes, l);
      ValueWritten(v, Separator(first), after, depth + 1, nodes, l);
      ItemsWritten(others, false, tail, depth, nodes + Size(v), l);
  }

  lemma SeparatorShort(first: bool)
    ensures |Separator(first)| <= 1
  { }

  lemma {:induction false} MembersWritten(members: Members, first: bool, keys: set<string>, tail: seq<Lexeme>, depth: nat,
                                          nodes: nat, l: Limits)
    ensures var r := Fields(WriteMembers(members, first) + tail, first, keys, depth, nodes, l);
            && (r.Ok? <==> MembersFit(members, keys, depth, nodes, l))
            && (r.Ok? ==> r.value == (tail, nodes + MembersSize(members)))
    decreases members
  {
    SizeCons(NoItems, members);
    hide *;
    match members
    case NoMembers => ContainerEnds(first, keys, tail, depth, nodes, l);
    case Member(key, v, rest) =>
      var after := WriteMembers(rest, false) + tail;
      MemberText(key, v, rest, first, tail);
      FieldsNext(key, [Colon] + (Write(v) + after), first, keys, depth, nodes, l);
      MembersFitCons(key, v, rest, keys, depth, nodes, l);
      ValueWritten(v, [Colon], after, depth + 1, nodes, l);
      MembersWritten(rest, false, keys + {key}, tail, depth, nodes + Size(v), l);
  }

  // ----- what is read was written

  lemma SplitAt(ls: seq<Lexeme>, separator: seq<Lexeme>)
    requires separator <= ls && |ls| > |separator|
    ensures ls == separator + ([ls[|separator|]] + ls[|separator| + 1..])
  { }

  lemma {:induction false} ValueRead(ls: seq<Lexeme>, separator: seq<Lexeme>, depth: nat, nodes: nat, l: Limits)
    returns (t: Tree)
    requires |separator| <= 1 && Value(ls, separator, depth, nodes, l).Ok?
    ensures ls == separator + (Write(t) + Value(ls, separator, depth, nodes, l).value.0)
    decreases |ls|, 0
  {
    SplitAt(ls, separator);
    var x, after := ls[|separator|], ls[|separator| + 1..];
    ValueNext(separator, x, after, depth, nodes, l);
    hide Value, Entries, Fields, WriteItems, WriteMembers;
    match x {
      case Scalar => t := Leaf;
      case Text(s) => t := Str(s);
      case LBracket =>
        var items := ItemsRead(after, true, depth, nodes + 1, l);
        t := Arr(items);
        ContainerText(items, NoMembers, Entries(after, true, depth, nodes + 1, l).value.0);
      case LBrace =>
        var members := MembersRead(after, true, {}, depth, nodes + 1, l);
        t := Obj(members);
        ContainerText(NoItems, members, Fields(after, true, {}, depth, nodes + 1, l).value.0);
    }
  }

  lemma {:induction false} ItemsRead(ls: seq<Lexeme>, first: bool, depth: nat, nodes: nat, l: Limits) returns (items: Items)
    requires Entries(ls, first, depth, nodes, l).Ok?
    ensures ls == WriteItems(items, first) + Entries(ls, first, depth, nodes, l).value.0
    decreases |ls|, 1
  {
    hide Value, Write;
    if Closes(ls[0]) {
      items := NoItems;
      assert ls == [ls[0]] + ls[1..];
    } else {
      var read := Value(ls, Separator(first), depth + 1, nodes, l).value;
      var v := ValueRead(ls, Separator(first), depth + 1, nodes, l);
      var others := ItemsRead(read.0, false, depth, read.1, l);
      items := Item(v, others);
      ItemText(v, others, first, Entries(read.0, false, depth, read.1, l).value.0);
    }
  }

  lemma {:induction false} MembersRead(ls: seq<Lexeme>, first: bool, keys: set<string>, depth: nat, nodes: nat, l: Limits)
    returns (members: Members)
    requires Fields(ls, first, keys, depth, nodes, l).Ok?
    ensures ls == WriteMembers(members, first) + Fields(ls, first, keys, depth, nodes, l).value.0
    decreases |ls|, 1
  {
    hide Value, Write;
    if Closes(ls[0]) {
      members := NoMembers;
      assert ls == [ls[0]] + ls[1..];
    } else {
      var separator := Separator(first);
      SplitAt(ls, separator);
      var key, after := ls[|separator|].s, ls[|separator| + 1..];
      var read := Value(after, [Colon], depth + 1, nodes, l).value;
      var v := ValueRead(after, [Colon], depth + 1, nodes, l);
      var rest := MembersRead(read.0, false, keys + {key}, depth, read.1, l);
      members := Member(key, v, rest);
      MemberText(key, v, rest, first, Fields(read.0, false, keys + {key}, depth, read.1, l).value.0);
    }
  }

  /** strictJSON: one value and nothing after it. */
  function Validate(document: seq<Lexeme>, l: Limits): Result<()> {
    var read := Value(document, [], 0, 0, l);
    if read.Err? then Err(read.code) else if read.value.0 != [] then Err("invalid_response") else Ok(())
  }

  lemma WrittenValidates(t: Tree, l: Limits)
    ensures Validate(Write(t), l).Ok? <==> Proper(t, l) && Height(t) <= l.depth && Size(t) <= l.nodes
  {
    ValueWritten(t, [], [], 0, 0, l);
    hide Value, Write;
    assert [] + (Write(t) + []) == Write(t);
  }

  /** The walker accepts exactly the texts of one value with unique keys, bounded depth and bounded size. */
  lemma ValidateIsStrict(document: seq<Lexeme>, l: Limits)
    ensures Validate(document, l).Ok? <==> Strict(document, l)
  {
    hide Value, Write, Proper, Height, Size;
    if Validate(document, l).Ok? {
      var t := ValueRead(document, [], 0, 0, l);
      assert document == [] + (Write(t) + []) == Write(t);
      WrittenValidates(t, l);
    } else if Strict(document, l) {
      var t :| document == Write(t) && Proper(t, l) && Height(t) <= l.depth && Size(t) <= l.nodes;
      WrittenValidates(t, l);
    }
  }

  // ----- what the error codes mean

  /** m allows whatever l allows. */
  predicate Wider(m: Limits, l: Limits) {
    l.depth <= m.depth && l.nodes <= m.nodes && (m.scalar <= 0 || (0 < l.scalar <= m.scalar))
  }

  predicate Code(code: string) { code == "invalid_response" || code == "resource_limit" }

  lemma ValueStuck(ls: seq<Lexeme>, separator: seq<Lexeme>, depth: nat, nodes: nat, l: Limits)
    requires |separator| <= 1 && !(separator <= ls && |ls| > |separator|)
    ensures Value(ls, separator, depth, nodes, l)
         == Err(if depth > l.depth || nodes + 1 > l.nodes then "resource_limit" else "invalid_response")
  { }

  lemma {:induction false} ValueWider(ls: seq<Lexeme>, separator: seq<Lexeme>, depth: nat, nodes: nat, l: Limits, m: Limits)
    requires |separator| <= 1 && Wider(m, l)
    ensures var r := Value(ls, separator, depth, nodes, l);
            && (r.Ok? || r.code == "invalid_response" ==> Value(ls, separator, depth, nodes, m) == r)
            && (r.Err? ==> Code(r.code))
    decreases |ls|, 0
  {
    hide Value, Entries, Fields;
    if separator <= ls && |ls| > |separator| {
      SplitAt(ls, separator);
      var x, after := ls[|separator|], ls[|separator| + 1..];
      ValueNext(separator, x, after, depth, nodes, l);
      ValueNext(separator, x, after, depth, nodes, m);
      if x.LBracket? { EntriesWider(after, true, depth, nodes + 1, l, m); }
      if x.LBrace? { FieldsWider(after, true, {}, depth, nodes + 1, l, m); }
    } else {
      ValueStuck(ls, separator, depth, nodes, l);
      ValueStuck(ls, separator, depth, nodes, m);
    }
  }

  lemma {:induction false} EntriesWider(ls: seq<Lexeme>, first: bool, depth: nat, nodes: nat, l: Limits, m: Limits)
    requires Wider(m, l)
    ensures var r := Entries(ls, first, depth, nodes, l);
            && (r.Ok? || r.code == "invalid_response" ==> Entries(ls, first, depth, nodes, m) == r)
            && (r.Err? ==> Code(r.code))
    decreases |ls|, 1
  {
    hide Value;
    if ls != [] && !Closes(ls[0]) {
      ValueWider(ls, Separator(first), depth + 1, nodes, l, m);
      var read := Value(ls, Separator(first), depth + 1, nodes, l);
      if read.Ok? { EntriesWider(read.value.0, false, depth, read.value.1, l, m); }
    }
  }

  lemma {:induction false} FieldsWider(ls: seq<Lexeme>, first: bool, keys: set<string>, depth: nat, nodes: nat, l: Limits, m: Limits)
    requires Wider(m, l)
    ensures var r := Fields(ls, first, keys, depth, nodes, l);
            && (r.Ok? || r.code == "invalid_response" ==> Fields(ls, first, keys, depth, nodes, m) == r)
            && (r.Err? ==> Code(r.code))
    decreases |ls|, 1
  {
    hide Value;
    var separator := Separator(first);
    if ls != [] && !Closes(ls[0]) && separator <= ls && |ls| > |separator| && ls[|separator|].Text? {
      var key, after := ls[|separator|].s, ls[|separator| + 1..];
      ValueWider(after, [Colon], depth + 1, nodes, l, m);
      var read := Value(after, [Colon], depth + 1, nodes, l);
      if ShortText(key, l) && key !in keys && read.Ok? {
        FieldsWider(read.value.0, false, keys + {key}, depth, read.value.1, l, m);
      }
    }
  }

  /** No text of this length can be too deep, have too many values or too long strings. */
  predicate Generous(length: nat, depth: nat, nodes: nat, l: Limits) {
    depth + length <= l.depth && nodes + length < l.nodes && l.scalar <= 0
  }

  lemma {:induction false} ValueGenerous(ls: seq<Lexeme>, separator: seq<Lexeme>, depth: nat, nodes: nat, l: Limits)
    requires |separator| <= 1 && Generous(|ls|, depth, nodes, l)
    ensures var r := Value(ls, separator, depth, nodes, l);
            if r.Err? then r.code == "invalid_response" else r.value.1 + |r.value.0| <= nodes + |ls|
    decreases |ls|, 0
  {
    if separator <= ls && |ls| > |separator| {
      SplitAt(ls, separator);
      var x, after := ls[|separator|], ls[|separator| + 1..];
      ValueNext(separator, x, after, depth, nodes, l);
      hide Value, Entries, Fields;
      EntriesGenerous(after, true, depth, nodes + 1, l);
      FieldsGenerous(after, true, {}, depth, nodes + 1, l);
    }
  }

  lemma {:induction false} EntriesGenerous(ls: seq<Lexeme>, first: bool, depth: nat, nodes: nat, l: Limits)
    requires depth + |ls| < l.depth && nodes + |ls| < l.nodes && l.scalar <= 0
    ensures var r := Entries(ls, first, depth, nodes, l);
            if r.Err? then r.code == "invalid_response" else r.value.1 + |r.value.0| <= nodes + |ls|
    decreases |ls|, 1
  {
    hide Value;
    if ls != [] && !Closes(ls[0]) {
      ValueGenerous(ls, Separator(first), depth + 1, nodes, l);
      var read := Value(ls, Separator(first), depth + 1, nodes, l);
      if read.Ok? { EntriesGenerous(read.value.0, false, depth, read.value.1, l); }
    }
  }

  lemma {:induction false} FieldsGenerous(ls: seq<Lexeme>, first: bool, keys: set<string>, depth: nat, nodes: nat, l: Limits)
    requires depth + |ls| < l.depth && nodes + |ls| < l.nodes && l.scalar <= 0
    ensures var r := Fields(ls, first, keys, depth, nodes, l);
            if r.Err? then r.code == "invalid_response" else r.value.1 + |r.value.0| <= nodes + |ls|
    decreases |ls|, 1
  {
    hide Value;
    var separator := Separator(first);
    if ls != [] && !Closes(ls[0]) && separator <= ls && |ls| > |separator| && ls[|separator|].Text? {
      var key, after := ls[|separator|].s, ls[|separator| + 1..];
      ValueGenerous(after, [Colon], depth + 1, nodes, l);
      var read := Value(after, [Colon], depth + 1, nodes, l);
      if key !in keys && read.Ok? { FieldsGenerous(read.value.0, false, keys + {key}, depth, read.value.1, l); }
    }
  }

  /** Limits under which both documents and errors of l and of m show up. */
  function Widest(l: Limits, m: Limits): Limits { Limits(Max(l.depth, m.depth), Max(l.nodes, m.nodes), 0) }

  /** A text is called invalid only when no limits could make it acceptable, and a limit is blamed only when one of them
      is smaller than the text could need. */
  lemma CodesMeanIt(document: seq<Lexeme>, l: Limits)
    ensures Validate(document, l) == Err("invalid_response") ==> forall m :: !Strict(document, m)
    ensures Validate(document, l) == Err("resource_limit") ==> !Generous(|document|, 0, 0, l)
    ensures Validate(document, l).Err? ==> Code(Validate(document, l).code)
  {
    hide Value, Strict;
    ValueWider(document, [], 0, 0, l, Widest(l, l));
    if Generous(|document|, 0, 0, l) { ValueGenerous(document, [], 0, 0, l); }
    if Validate(document, l) == Err("invalid_response") {
      forall m ensures !Strict(document, m) {
        ValueWider(document, [], 0, 0, l, Widest(l, m));
        ValidateIsStrict(document, m);
        ValueWider(document, [], 0, 0, m, Widest(l, m));
      }
    }
  }

  // ----- a text is the writing of one value only

  lemma {:induction false} WriteUnique(a: Tree, b: Tree, r: seq<Lexeme>, q: seq<Lexeme>)
    requires Write(a) + r == Write(b) + q
    ensures a == b && r == q
    decreases a
  {
    FirstLexeme(a, r);
    FirstLexeme(b, q);
    hide Write, WriteItems, WriteMembers;
    match a
    case Leaf => { }
    case Str(_) => { }
    case Arr(items) => ItemsUnique(items, b.items, true, r, q);
    case Obj(members) => MembersUnique(members, b.members, true, r, q);
  }

  /** The first lexeme tells the kind of a value, and what follows is its contents. */
  lemma FirstLexeme(t: Tree, tail: seq<Lexeme>)
    ensures var ls := Write(t) + tail;
            && ls != []
            && (t.Leaf? <==> ls[0].Scalar?) && (t.Str? <==> ls[0].Text?) && (t.Arr? <==> ls[0].LBracket?)
            && (t.Str? ==> ls[0].s == t.s) && (t.Leaf? || t.Str? ==> ls[1..] == tail)
            && (t.Arr? ==> ls[1..] == WriteItems(t.items, true) + tail)
            && (t.Obj? ==> ls[1..] == WriteMembers(t.members, true) + tail)
  {
    hide WriteItems, WriteMembers;
    match t
    case Leaf => { }
    case Str(_) => { }
    case Arr(items) => ContainerText(items, NoMembers, tail);
    case Obj(members) => ContainerText(NoItems, members, tail);
  }

  lemma Uncons(separator: seq<Lexeme>, x: seq<Lexeme>, y: seq<Lexeme>)
    requires separator + x == separator + y
    ensures x == y
  {
    assert (separator + x)[|separator|..] == x && (separator + y)[|separator|..] == y;
  }

  lemma ItemsStart(items: Items, first: bool, tail: seq<Lexeme>)
    ensures var ls := WriteItems(items, first) + tail; ls != [] && (items.NoItems? <==> ls[0].RBracket?)
    ensures items.NoItems? ==> WriteItems(items, first) + tail == [RBracket] + tail
  {
    if items.Item? {
      ItemText(items.item, items.others, first, tail);
      WriteStarts(items.item);
      hide Write;
    }
  }

  lemma MembersStart(members: Members, first: bool, tail: seq<Lexeme>)
    ensures var ls := WriteMembers(members, first) + tail; ls != [] && (members.NoMembers? <==> ls[0].RBrace?)
    ensures members.NoMembers? ==> WriteMembers(members, first) + tail == [RBrace] + tail
  {
    if members.Member? {
      MemberText(members.key, members.value, members.rest, first, tail);
      hide Write;
    }
  }

  lemma {:induction false} ItemsUnique(a: Items, b: Items, first: bool, r: seq<Lexeme>, q: seq<Lexeme>)
    requires WriteItems(a, first) + r == WriteItems(b, first) + q
    ensures a == b && r == q
    decreases a
  {
    ItemsStart(a, first, r);
    ItemsStart(b, first, q);
    hide *;
    if a.NoItems? {
      Uncons([RBracket], r, q);
    } else {
      var x, y := WriteItems(a.others, false) + r, WriteItems(b.others, false) + q;
      ItemText(a.item, a.others, first, r);
      ItemText(b.item, b.others, first, q);
      Uncons(Separator(first), Write(a.item) + x, Write(b.item) + y);
      WriteUnique(a.item, b.item, x, y);
      ItemsUnique(a.others, b.others, false, r, q);
    }
  }

  lemma {:induction false} MembersUnique(a: Members, b: Members, first: bool, r: seq<Lexeme>, q: seq<Lexeme>)
    requires WriteMembers(a, first) + r == WriteMembers(b, first) + q
    ensures a == b && r == q
    decreases a
  {
    MembersStart(a, first, r);
    MembersStart(b, first, q);
    hide *;
    if a.NoMembers? {
      Uncons([RBrace], r, q);
    } else {
      var x, y := WriteMembers(a.rest, false) + r, WriteMembers(b.rest, false) + q;
      MemberText(a.key, a.value, a.rest, first, r);
      MemberText(b.key, b.value, b.rest, first, q);
      Uncons(Separator(first), [Text(a.key)] + ([Colon] + (Write(a.value) + x)), [Text(b.key)] + ([Colon] + (Write(b.value) + y)));
      SameKey(a.key, b.key, [Colon] + (Write(a.value) + x), [Colon] + (Write(b.value) + y));
      Uncons([Colon], Write(a.value) + x, Write(b.value) + y);
      WriteUnique(a.value, b.value, x, y);
      MembersUnique(a.rest, b.rest, false, r, q);
    }
  }

  lemma SameKey(a: string, b: string, x: seq<Lexeme>, y: seq<Lexeme>)
    requires [Text(a)] + x == [Text(b)] + y
    ensures a == b && x == y
  {
    assert ([Text(a)] + x)[0] == Text(a) && ([Text(b)] + y)[0] == Text(b);
    Uncons([Text(a)], x, y);
  }

  // ----- the decoder

  datatype TokenState =
    | TopValue | ArrayStart | ArrayValue | ArrayComma
    | ObjectStart | ObjectKey | ObjectColon | ObjectValue | ObjectComma

  /** json.Decoder while it hands out tokens: commas and colons only move its state. */
  datatype Decoder = Decoder(rest: seq<Lexeme>, state: TokenState, stack: seq<TokenState>)

  datatype Next = Got(token: Lexeme, decoder: Decoder) | End | Bad

  predicate ValueAllowed(s: TokenState) { s.TopValue? || s.ArrayStart? || s.ArrayValue? || s.ObjectValue? }

  function AfterValue(s: TokenState): TokenState {
    match s
    case ArrayStart => ArrayComma
    case ArrayValue => ArrayComma
    case ObjectValue => ObjectComma
    case _ => s
  }

  function Open(d: Decoder, inside: TokenState): Next
    requires d.rest != []
  {
    if ValueAllowed(d.state) then Got(d.rest[0], Decoder(d.rest[1..], inside, d.stack + [d.state])) else Bad
  }

  function Shut(d: Decoder, allowed: bool): Next
    requires d.rest != []
  {
    if !allowed || d.stack == [] then Bad
    else
      var top := |d.stack| - 1;
      Got(d.rest[0], Decoder(d.rest[1..], AfterValue(d.stack[top]), d.stack[..top]))
  }

  function Token(d: Decoder): Next
    decreases |d.rest|
  {
    if d.rest == [] then End
    else match d.rest[0]
      case LBracket => Open(d, ArrayStart)
      case RBracket => Shut(d, d.state.ArrayStart? || d.state.ArrayComma?)
      case LBrace => Open(d, ObjectStart)
      case RBrace => Shut(d, d.state.ObjectStart? || d.state.ObjectComma?)
      case Colon => if d.state.ObjectColon? then Token(Decoder(d.rest[1..], ObjectValue, d.stack)) else Bad
      case Comma =>
        if d.state.ArrayComma? then Token(Decoder(d.rest[1..], ArrayValue, d.stack))
        else if d.state.ObjectComma? then Token(Decoder(d.rest[1..], ObjectKey, d.stack))
        else Bad
      case Text(_) =>
        if d.state.ObjectStart? || d.state.ObjectKey? then Got(d.rest[0], Decoder(d.rest[1..], ObjectColon, d.stack))
        else if ValueAllowed(d.state) then Got(d.rest[0], Decoder(d.rest[1..], AfterValue(d.state), d.stack))
        else Bad
      case Scalar =>
        if ValueAllowed(d.state) then Got(d.rest[0], Decoder(d.rest[1..], AfterValue(d.state), d.stack)) else Bad
      case Unread => Bad
  }

  function More(d: Decoder): bool { d.rest != [] && !Closes(d.rest[0]) }

  /** The separator the decoder will pass over before the next value or key. */
  function Pending(s: TokenState): seq<Lexeme> {
    if s.ArrayComma? || s.ObjectComma? then [Comma] else if s.ObjectColon? then [Colon] else []
  }

  /** The state once the separator has been passed. */
  function Ready(s: TokenState): TokenState {
    match s
    case ArrayComma => ArrayValue
    case ObjectComma => ObjectKey
    case ObjectColon => ObjectValue
    case _ => s
  }

  /** Where walk is called: at the top, behind a key, or in an array that has more. */
  predicate BeforeValue(d: Decoder) {
    d.state.TopValue? || d.state.ObjectColon? || ((d.state.ArrayStart? || d.state.ArrayComma?) && More(d))
  }

  /** A separator that is due is passed over; anything else in its place is no token. */
  lemma TokenPasses(d: Decoder)
    requires Pending(d.state) != [] && (d.state.ObjectColon? || More(d))
    ensures Pending(d.state) <= d.rest ==> Token(d) == Token(Decoder(d.rest[1..], Ready(d.state), d.stack))
    ensures !(Pending(d.state) <= d.rest) ==> !Token(d).Got?
  {
    if d.rest != [] { assert Pending(d.state) <= d.rest <==> d.rest[0] == Pending(d.state)[0]; }
  }

  /** Where a value may come, the next token is the lexeme after the separator, and it never is a closing one. */
  lemma TokenBeforeValue(d: Decoder)
    requires BeforeValue(d)
    ensures var sep := Pending(d.state);
            match Token(d)
            case Got(x, e) =>
              && sep <= d.rest && |d.rest| > |sep| && x == d.rest[|sep|] && e.rest == d.rest[|sep| + 1..]
              && (x.Scalar? || x.Text? || x.LBracket? || x.LBrace?)
              && (x.Scalar? || x.Text? ==> e.state == AfterValue(Ready(d.state)) && e.stack == d.stack)
              && (x.LBracket? ==> e.state == ArrayStart && e.stack == d.stack + [Ready(d.state)])
              && (x.LBrace? ==> e.state == ObjectStart && e.stack == d.stack + [Ready(d.state)])
            case _ =>
              sep <= d.rest && |d.rest| > |sep|
              ==> var x := d.rest[|sep|]; !x.Scalar? && !x.Text? && !x.LBracket? && !x.LBrace?
  {
    if Pending(d.state) != [] { TokenPasses(d); }
  }

  /** Where a key may come, the next token is a string or there is none. */
  lemma TokenBeforeKey(d: Decoder)
    requires (d.state.ObjectStart? || d.state.ObjectComma?) && More(d)
    ensures var sep := Pending(d.state);
            match Token(d)
            case Got(x, e) =>
              && sep <= d.rest && |d.rest| > |sep| && x == d.rest[|sep|] && x.Text?
              && e == Decoder(d.rest[|sep| + 1..], ObjectColon, d.stack)
            case _ => sep <= d.rest && |d.rest| > |sep| ==> !d.rest[|sep|].Text?
  {
    if Pending(d.state) != [] { TokenPasses(d); }
  }

  /** Where no more elements come, the next token closes the container it is in, or there is none. */
  lemma TokenAtEnd(d: Decoder, outer: TokenState, stack: seq<TokenState>)
    requires d.stack == stack + [outer] && !More(d)
    requires d.state.ArrayStart? || d.state.ArrayComma? || d.state.ObjectStart? || d.state.ObjectComma?
    ensures Token(d).Got? <==> d.rest != [] && (d.rest[0].RBracket? <==> d.state.ArrayStart? || d.state.ArrayComma?)
    ensures Token(d).Got? ==> Token(d).decoder == Decoder(d.rest[1..], AfterValue(outer), stack)
  { }

  // ----- the walker

  class Walker {
    const l: Limits
    var d: Decoder
    var nodes: nat

    constructor (document: seq<Lexeme>, l: Limits)
      ensures this.l == l && d == Decoder(document, TopValue, []) && nodes == 0
    {
      this.l, d, nodes := l, Decoder(document, TopValue, []), 0;
    }

    /** walk: reads one value and leaves the decoder behind it. The branches for a closing delimiter in place of a
        value and for a key that is not a string cannot be reached. */
    method Walk(depth: nat) returns (r: Result<()>)
      requires BeforeValue(d)
      modifies this
      ensures var read := Value(old(d.rest), Pending(old(d.state)), depth, old(nodes), l);
              if read.Err? then r == Err(read.code)
              else r == Ok(()) && nodes == read.value.1
                   && d == Decoder(read.value.0, AfterValue(Ready(old(d.state))), old(d.stack))
      decreases |d.rest|, 0
    {
      nodes := nodes + 1;
      if depth > l.depth || nodes > l.nodes { return Err("resource_limit"); }
      TokenBeforeValue(d);
      var token := Token(d);
      if !token.Got? { return Err("invalid_response"); }
      d := token.decoder;
      if token.token.Text? && !ShortText(token.token.s, l) { return Err("resource_limit"); }
      match token.token {
        case LBrace =>
          r := WalkObject(depth);
        case LBracket =>
          r := WalkArray(depth);
        case Text(_) => return Ok(());
        case Scalar => return Ok(());
      }
    }

    method WalkArray(depth: nat) returns (r: Result<()>)
      requires d.state.ArrayStart? && d.stack != []
      modifies this
      ensures var read := Entries(old(d.rest), true, depth, old(nodes), l);
              if read.Err? then r == Err(read.code)
              else r == Ok(()) && nodes == read.value.1
                   && d == Decoder(read.value.0, AfterValue(old(d.stack)[|old(d.stack)| - 1]), old(d.stack)[..|old(d.stack)| - 1])
      decreases |d.rest|, 1
    {
      ghost var outer, stack := d.stack[|d.stack| - 1], d.stack[..|d.stack| - 1];
      while More(d)
        invariant d.stack == old(d.stack) == stack + [outer] && (d.state.ArrayStart? || d.state.ArrayComma?)
        invariant |d.rest| <= |old(d.rest)|
        invariant Entries(d.rest, d.state.ArrayStart?, depth, nodes, l) == Entries(old(d.rest), true, depth, old(nodes), l)
        decreases |d.rest|
      {
        r := Walk(depth + 1);
        if r.Err? { return; }
      }
      TokenAtEnd(d, outer, stack);
      var token := Token(d);
      if !token.Got? { return Err("invalid_response"); }
      d := token.decoder;
      return Ok(());
    }

    method WalkObject(depth: nat) returns (r: Result<()>)
      requires d.state.ObjectStart? && d.stack != []
      modifies this
      ensures var read := Fields(old(d.rest), true, {}, depth, old(nodes), l);
              if read.Err? then r == Err(read.code)
              else r == Ok(()) && nodes == read.value.1
                   && d == Decoder(read.value.0, AfterValue(old(d.stack)[|old(d.stack)| - 1]), old(d.stack)[..|old(d.stack)| - 1])
      decreases |d.rest|, 1
    {
      ghost var outer, stack := d.stack[|d.stack| - 1], d.stack[..|d.stack| - 1];
      var keys: set<string> := {};
      while More(d)
        invariant d.stack == old(d.stack) == stack + [outer] && (d.state.ObjectStart? || d.state.ObjectComma?)
        invariant |d.rest| <= |old(d.rest)|
        invariant Fields(d.rest, d.state.ObjectStart?, keys, depth, nodes, l) == Fields(old(d.rest), true, {}, depth, old(nodes), l)
        decreases |d.rest|
      {
        TokenBeforeKey(d);
        var key := Token(d);
        if !key.Got? { return Err("invalid_response"); }
        d := key.decoder;
        if !ShortText(key.token.s, l) { return Err("resource_limit"); }
        if key.token.s in keys { return Err("invalid_response"); }
        keys := keys + {key.token.s};
        r := Walk(depth + 1);
        if r.Err? { return; }
      }
      TokenAtEnd(d, outer, stack);
      var token := Token(d);
      if !token.Got? { return Err("invalid_response"); }
      d := token.decoder;
      return Ok(());
    }
  }

  /** strictJSONContext. */
  method StrictJson(document: seq<Lexeme>, l: Limits) returns (r: Result<()>)
    ensures r == Validate(document, l)
    ensures r.Ok? <==> Strict(document, l)
  {
    ValidateIsStrict(document, l);
    hide Value, Strict;
    var w := new Walker(document, l);
    r := w.Walk(0);
    if r.Err? { return; }
    if !Token(w.d).End? { return Err("invalid_response"); }
  }
}
