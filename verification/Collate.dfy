/** Freezing a rendered collate query: a textual replacement that must be a substitution in the tree. */
module Collate {
  import opened Common
  import opened Json
  import opened JsonRead

  const HOLE := "{{#toJson}}suggestion{{/toJson}}"

  predicate Hexish(c: char) { '0' <= c <= '9' || 'a' <= c <= 'f' || c == '-' }

  const PREFIX := ":collate-"

  /** ":collate-" + a UUID + ":". */
  ghost predicate IsMarker(marker: string) {
    exists uuid: string :: marker == PREFIX + uuid + ":" && forall i :: 0 <= i < |uuid| ==> Hexish(uuid[i])
  }

  /** strings.Contains. */
  predicate Contains(s: string, sub: string) { sub <= s || (s != "" && Contains(s[1..], sub)) }

  /** strings.ReplaceAll. */
  function ReplaceAll(t: string, pat: string, put: string): string
    requires pat != ""
    decreases |t|
  {
    if |t| < |pat| then t
    else if t[..|pat|] == pat then put + ReplaceAll(t[|pat|..], pat, put)
    else [t[0]] + ReplaceAll(t[1..], pat, put)
  }

  // ----- what the service accepts and what it freezes

  predicate ContainsMarker(v: Json, marker: string)
    decreases v
  {
    match v
    case Str(s) => Contains(s, marker)
    case Obj(fields) =>
      exists i :: 0 <= i < |fields| && (Contains(fields[i].key, marker) || ContainsMarker(fields[i].value, marker))
    case Arr(items) => exists i :: 0 <= i < |items| && ContainsMarker(items[i], marker)
    case _ => false
  }

  /** collateCandidateScalars returned no error. */
  predicate CandidateScalars(v: Json, marker: string, parent: string)
    decreases v
  {
    match v
    case Obj(fields) =>
      forall i :: 0 <= i < |fields| ==>
        && !Contains(fields[i].key, marker)
        && !(parent == "script" && fields[i].key in {"source", "id"} && ContainsMarker(fields[i].value, marker))
        && CandidateScalars(fields[i].value, marker, fields[i].key)
    case Arr(items) => forall i :: 0 <= i < |items| ==> CandidateScalars(items[i], marker, parent)
    case Str(s) => Contains(s, marker) ==> s == marker
    case _ => true
  }

  /** The freeze step of prepareCollate on a rendered query that was already proved. */
  function Freeze(rendered: Json, marker: string): Result<string>
    requires marker != ""
  {
    if CandidateScalars(rendered, marker, "") then Ok(ReplaceAll(Print(rendered), QUOTE + marker + QUOTE, HOLE))
    else Err("capability_unavailable")
  }

  // ----- what acceptance says about every node of the tree

  /** Node n sits at `path` in v, and q is the nearest field name above it (`parent` at the root). */
  ghost predicate At(v: Json, parent: string, path: seq<nat>, n: Json, q: string)
    decreases |path|
  {
    if path == [] then n == v && q == parent
    else match v
      case Arr(items) => path[0] < |items| && At(items[path[0]], parent, path[1..], n, q)
      case Obj(fields) => path[0] < |fields| && At(fields[path[0]].value, fields[path[0]].key, path[1..], n, q)
      case _ => false
  }

  /** A string is the marker or free of it, no key has it, and under `script` neither `source` nor `id` holds it anywhere. */
  ghost predicate NodeAccepted(n: Json, q: string, marker: string) {
    match n
    case Str(s) => Contains(s, marker) ==> s == marker
    case Obj(fields) => forall i :: 0 <= i < |fields| ==>
      && !Contains(fields[i].key, marker)
      && !(q == "script" && fields[i].key in {"source", "id"} && ContainsMarker(fields[i].value, marker))
    case _ => true
  }

  ghost predicate NodeMarked(n: Json, marker: string) {
    match n
    case Str(s) => Contains(s, marker)
    case Obj(fields) => exists i :: 0 <= i < |fields| && Contains(fields[i].key, marker)
    case _ => false
  }

  lemma {:induction false} AcceptedDown(v: Json, marker: string, parent: string, path: seq<nat>, n: Json, q: string)
    requires CandidateScalars(v, marker, parent) && At(v, parent, path, n, q)
    ensures NodeAccepted(n, q, marker)
    decreases |path|
  {
    hide Contains, ContainsMarker;
    if path != [] {
      match v
      case Arr(items) => AcceptedDown(items[path[0]], marker, parent, path[1..], n, q);
      case Obj(fields) => AcceptedDown(fields[path[0]].value, marker, fields[path[0]].key, path[1..], n, q);
      case _ =>
    }
  }

  lemma {:induction false} RejectedBelow(v: Json, marker: string, parent: string) returns (path: seq<nat>, n: Json, q: string)
    requires !CandidateScalars(v, marker, parent)
    ensures At(v, parent, path, n, q) && !NodeAccepted(n, q, marker)
    decreases v
  {
    hide Contains, ContainsMarker;
    path, n, q := [], v, parent;
    if NodeAccepted(v, parent, marker) {
      match v
      case Arr(items) =>
        var i :| 0 <= i < |items| && !CandidateScalars(items[i], marker, parent);
        path, n, q := RejectedBelow(items[i], marker, parent);
        assert ([i] + path)[1..] == path;
        path := [i] + path;
      case Obj(fields) =>
        var i :| 0 <= i < |fields| && !CandidateScalars(fields[i].value, marker, fields[i].key);
        path, n, q := RejectedBelow(fields[i].value, marker, fields[i].key);
        assert ([i] + path)[1..] == path;
        path := [i] + path;
      case _ =>
    }
  }

  /** The recursion over the value checks every node, and only those. */
  lemma CandidateScalarsIff(v: Json, marker: string, parent: string)
    ensures CandidateScalars(v, marker, parent)
       <==> forall path, n, q :: At(v, parent, path, n, q) ==> NodeAccepted(n, q, marker)
  {
    hide CandidateScalars, NodeAccepted, At;
    if CandidateScalars(v, marker, parent) {
      forall path, n, q | At(v, parent, path, n, q) ensures NodeAccepted(n, q, marker) {
        AcceptedDown(v, marker, parent, path, n, q);
      }
    } else {
      var path, n, q := RejectedBelow(v, marker, parent);
    }
  }

  lemma {:induction false} MarkedUp(v: Json, marker: string, parent: string, path: seq<nat>, n: Json, q: string)
    requires At(v, parent, path, n, q) && NodeMarked(n, marker)
    ensures ContainsMarker(v, marker)
    decreases |path|
  {
    hide Contains;
    if path != [] {
      match v
      case Arr(items) => MarkedUp(items[path[0]], marker, parent, path[1..], n, q);
      case Obj(fields) => MarkedUp(fields[path[0]].value, marker, fields[path[0]].key, path[1..], n, q);
      case _ =>
    }
  }

  lemma {:induction false} MarkedBelow(v: Json, marker: string, parent: string) returns (path: seq<nat>, n: Json, q: string)
    requires ContainsMarker(v, marker)
    ensures At(v, parent, path, n, q) && NodeMarked(n, marker)
    decreases v
  {
    hide Contains;
    path, n, q := [], v, parent;
    if !NodeMarked(v, marker) {
      match v
      case Arr(items) =>
        var i :| 0 <= i < |items| && ContainsMarker(items[i], marker);
        path, n, q := MarkedBelow(items[i], marker, parent);
        assert ([i] + path)[1..] == path;
        path := [i] + path;
      case Obj(fields) =>
        var i :| 0 <= i < |fields| && ContainsMarker(fields[i].value, marker);
        path, n, q := MarkedBelow(fields[i].value, marker, fields[i].key);
        assert ([i] + path)[1..] == path;
        path := [i] + path;
      case _ =>
    }
  }

  /** collateContainsMarker finds the marker wherever it is. */
  lemma ContainsMarkerIff(v: Json, marker: string, parent: string)
    ensures ContainsMarker(v, marker) <==> exists path, n, q :: At(v, parent, path, n, q) && NodeMarked(n, marker)
  {
    hide ContainsMarker, NodeMarked, At;
    if ContainsMarker(v, marker) {
      var path, n, q := MarkedBelow(v, marker, parent);
    } else {
      forall path, n, q | At(v, parent, path, n, q) ensures !NodeMarked(n, marker) {
        if NodeMarked(n, marker) { MarkedUp(v, marker, parent, path, n, q); }
      }
    }
  }

  // ----- substitution in the tree

  /** Every leaf equal to `from` becomes `to`; keys and all other leaves stay. */
  function Subst(j: Json, from: Json, to: Json): Json
    decreases j
  {
    if j == from then to
    else match j
      case Arr(items) => Arr(SubstItems(items, from, to))
      case Obj(fields) => Obj(SubstFields(fields, from, to))
      case _ => j
  }

  function SubstItems(items: seq<Json>, from: Json, to: Json): seq<Json>
    decreases items
  {
    if items == [] then [] else [Subst(items[0], from, to)] + SubstItems(items[1..], from, to)
  }

  function SubstFields(fields: seq<Field>, from: Json, to: Json): seq<Field>
    decreases fields
  {
    if fields == [] then [] else [Field(fields[0].key, Subst(fields[0].value, from, to))] + SubstFields(fields[1..], from, to)
  }

  // ----- replacing a pattern in printed text

  /** The two patterns at work: a quoted marker, and the hole. `core` is the part that strings must not contain. */
  ghost predicate Pattern(pat: string, core: string) {
    && |core| >= 2 && (forall i :: 0 <= i < |core| ==> Plain(core[i]))
    && ((pat == QUOTE + core + QUOTE && core[0] == ':' && core[1] == 'c') || (pat == core && core[0] == '{' && core[1] == '{'))
  }

  /** The text after a string must not continue a match that starts at its closing quote. */
  predicate Follows(rest: string) { !(|rest| >= 2 && rest[0] == ':' && rest[1] == 'c') }

  lemma ReplaceNext(c: char, t: string, pat: string, core: string, put: string)
    requires Pattern(pat, core) && !(pat <= [c] + t)
    ensures ReplaceAll([c] + t, pat, put) == [c] + ReplaceAll(t, pat, put)
  {
    assert ([c] + t)[1..] == t;
    if |[c] + t| < |pat| { assert ReplaceAll(t, pat, put) == t; }
  }

  /** Text whose characters cannot start a match is copied. */
  lemma {:induction false} SkipText(u: string, rest: string, pat: string, core: string, put: string)
    requires Pattern(pat, core) && forall i :: 0 <= i < |u| ==> u[i] != pat[0]
    ensures ReplaceAll(u + rest, pat, put) == u + ReplaceAll(rest, pat, put)
  {
    hide ReplaceAll;
    if u == "" {
      assert u + rest == rest;
      assert u + ReplaceAll(rest, pat, put) == ReplaceAll(rest, pat, put);
    } else {
      assert u + rest == [u[0]] + (u[1..] + rest);
      ReplaceNext(u[0], u[1..] + rest, pat, core, put);
      SkipText(u[1..], rest, pat, core, put);
      assert [u[0]] + (u[1..] + ReplaceAll(rest, pat, put)) == u + ReplaceAll(rest, pat, put);
    }
  }

  /** Plain text that starts the rest of a printed string starts the string itself. */
  lemma {:induction false} PlainPrefix(core: string, s: string, rest: string)
    requires forall i :: 0 <= i < |core| ==> Plain(core[i])
    requires core <= Escape(s) + QUOTE + rest
    ensures core <= s
  {
    hide EscapeChar, Plain, Unicoded;
    if core != "" {
      var u := Escape(s) + QUOTE + rest;
      assert core[0] == u[0];
      EscapeShape(core[0]);
      NotPlain();
      ClosingQuote(s, rest);
      EscapeUnfold(s, rest);
      EscapeShape(s[0]);
      assert u[0] == EscapeChar(s[0])[0];
      assert Plain(s[0]);
      assert core[1..] <= Escape(s[1..]) + QUOTE + rest by { assert u[1..] == Escape(s[1..]) + QUOTE + rest; }
      PlainPrefix(core[1..], s[1..], rest);
      assert core == [core[0]] + core[1..] && s == [s[0]] + s[1..];
    }
  }

  lemma ClosingQuote(s: string, rest: string)
    ensures (Escape(s) + QUOTE + rest)[0] == '\"' <==> s == ""
  {
    hide EscapeChar;
    if s != "" { EscapeUnfold(s, rest); }
  }

  lemma NotPlain()
    ensures !Plain('\"') && !Plain('\\')
  { }

  // ----- strings, whole values, lists

  /** A character of a string that opens no match: neither its code nor anything in it is touched. */
  lemma SkipChar(c: char, t: string, pat: string, core: string, put: string)
    requires Pattern(pat, core) && !(core <= t) && !(Plain(c) && core <= [c] + t && pat == core)
    ensures ReplaceAll(EscapeChar(c) + t, pat, put) == EscapeChar(c) + ReplaceAll(t, pat, put)
  {
    assert pat[0] == '\"' || pat[0] == '{';
    if c == '\"' {
      assert (['\\'] + (QUOTE + t))[0] == '\\';
      assert EscapeChar(c) + t == ['\\'] + (QUOTE + t);
      assert !(pat <= QUOTE + t) by {
        assert (QUOTE + t)[0] == '\"' && (QUOTE + t)[1..] == t;
        assert pat != core ==> core <= pat[1..];
      }
      ReplaceNext('\"', t, pat, core, put);
      ReplaceNext('\\', QUOTE + t, pat, core, put);
    } else if Plain(c) {
      EscapeShape(c);
      assert pat != core ==> pat[0] == '\"';
      assert ([c] + t)[0] == c;
      ReplaceNext(c, t, pat, core, put);
    } else {
      EscapeBody(c);
      SkipText(EscapeChar(c), t, pat, core, put);
    }
  }

  lemma EscapeBody(c: char)
    requires !Plain(c) && c != '\"'
    ensures forall i :: 0 <= i < |EscapeChar(c)| ==> EscapeChar(c)[i] != '\"' && EscapeChar(c)[i] != '{'
  {
    hide EscapeChar, Hex4, Unicoded;
    EscapeShape(c);
    if Unicoded(c) { HexBody(c as int); }
  }

  lemma HexBody(n: nat)
    requires n < 0x10000
    ensures forall i :: 0 <= i < 4 ==> Hex4(n)[i] != '\"' && Hex4(n)[i] != '{'
  {
    forall d: nat | d < 16 ensures HEX[d] != '\"' && HEX[d] != '{' { }
  }

  /** A string that does not contain the core is copied, quotes and all. */
  lemma {:induction false} SkipString(s: string, rest: string, pat: string, core: string, put: string)
    requires Pattern(pat, core) && !Contains(s, core) && Follows(rest)
    ensures ReplaceAll(Escape(s) + QUOTE + rest, pat, put) == Escape(s) + QUOTE + ReplaceAll(rest, pat, put)
  {
    hide EscapeChar, Plain;
    if s == "" {
      assert Escape(s) + QUOTE + rest == QUOTE + rest && Escape(s) + QUOTE + ReplaceAll(rest, pat, put) == QUOTE + ReplaceAll(rest, pat, put);
      assert !(pat <= QUOTE + rest) by { ClosingSafe(rest, pat, core); }
      ReplaceNext('\"', rest, pat, core, put);
    } else {
      var t := Escape(s[1..]) + QUOTE + rest;
      EscapeUnfold(s, rest);
      EscapeUnfold(s, ReplaceAll(rest, pat, put));
      assert !(core <= t) by { if core <= t { PlainPrefix(core, s[1..], rest); } }
      assert !(Plain(s[0]) && core <= [s[0]] + t) by {
        if Plain(s[0]) && core <= [s[0]] + t {
          EscapeShape(s[0]);
          PlainPrefix(core, s, rest);
        }
      }
      SkipChar(s[0], t, pat, core, put);
      SkipString(s[1..], rest, pat, core, put);
    }
  }

  lemma ClosingSafe(rest: string, pat: string, core: string)
    requires Pattern(pat, core) && Follows(rest)
    ensures !(pat <= QUOTE + rest)
  {
    NotPlain();
    assert core[0] != '\"';
    assert (QUOTE + rest)[0] == '\"' && (QUOTE + rest)[1..] == rest;
  }

  lemma SkipQuoted(s: string, rest: string, pat: string, core: string, put: string)
    requires Pattern(pat, core) && !Contains(s, core) && Follows(rest)
    ensures ReplaceAll(PrintString(s) + rest, pat, put) == PrintString(s) + ReplaceAll(rest, pat, put)
  {
    hide Escape, Contains;
    var t := Escape(s) + QUOTE + rest;
    assert PrintString(s) + rest == [QUOTE[0]] + t;
    assert !(pat <= [QUOTE[0]] + t) by { OpeningSafe(s, rest, pat, core); }
    ReplaceNext(QUOTE[0], t, pat, core, put);
    SkipString(s, rest, pat, core, put);
    assert PrintString(s) + ReplaceAll(rest, pat, put) == [QUOTE[0]] + (Escape(s) + QUOTE + ReplaceAll(rest, pat, put));
  }

  lemma OpeningSafe(s: string, rest: string, pat: string, core: string)
    requires Pattern(pat, core) && !Contains(s, core)
    ensures !(pat <= [QUOTE[0]] + (Escape(s) + QUOTE + rest))
  {
    var t := Escape(s) + QUOTE + rest;
    if pat <= [QUOTE[0]] + t {
      NotPlain();
      assert pat[0] == '\"';
      assert pat[1..] <= t && core <= pat[1..];
      PlainPrefix(core, s, rest);
    }
  }

  // ----- replacing in a printed tree is substituting in the tree

  /** Apart from leaves equal to `from`, no key and no string of the tree contains the core. */
  ghost predicate Clean(j: Json, from: Json, core: string)
    decreases j
  {
    j == from || match j
    case Str(s) => !Contains(s, core)
    case Num(text) => ValidNumber(text)
    case Raw(_) => false
    case Arr(items) => forall i :: 0 <= i < |items| ==> Clean(items[i], from, core)
    case Obj(fields) => forall i :: 0 <= i < |fields| ==> !Contains(fields[i].key, core) && Clean(fields[i].value, from, core)
    case _ => true
  }

  ghost predicate CleanItems(items: seq<Json>, from: Json, core: string) {
    forall i :: 0 <= i < |items| ==> Clean(items[i], from, core)
  }

  ghost predicate CleanFields(fields: seq<Field>, from: Json, core: string) {
    forall i :: 0 <= i < |fields| ==> !Contains(fields[i].key, core) && Clean(fields[i].value, from, core)
  }

  /** `from` prints as the pattern. */
  ghost predicate Leaf(from: Json, pat: string, core: string) {
    pat != "" && Pattern(pat, core) && Print(from) == pat && (from.Str? || from.Raw?)
  }

  lemma Hit(rest: string, pat: string, core: string, put: string)
    requires Pattern(pat, core)
    ensures ReplaceAll(pat + rest, pat, put) == put + ReplaceAll(rest, pat, put)
  {
    assert (pat + rest)[..|pat|] == pat && (pat + rest)[|pat|..] == rest;
  }

  lemma ValueStart(j: Json, from: Json, pat: string, core: string)
    requires Leaf(from, pat, core) && Clean(j, from, core)
    ensures Print(j) != "" && Print(j)[0] != 'c'
  {
    hide PrintItems, PrintFields, Escape;
    if j == from { assert pat[0] == '\"' || pat[0] == '{'; }
  }

  lemma SkipOne(c: char, rest: string, pat: string, core: string, put: string)
    requires Pattern(pat, core) && c != '\"' && c != '{'
    ensures ReplaceAll([c] + rest, pat, put) == [c] + ReplaceAll(rest, pat, put)
  {
    assert pat[0] == '\"' || pat[0] == '{';
    SkipText([c], rest, pat, core, put);
  }

  /** The key lemma: replacing the pattern in the text of a clean tree substitutes the leaf, and touches nothing else. */
  lemma {:induction false} ReplaceValue(j: Json, rest: string, from: Json, to: Json, pat: string, core: string)
    requires Leaf(from, pat, core) && Clean(j, from, core) && Follows(rest)
    ensures ReplaceAll(Print(j) + rest, pat, Print(to)) == Print(Subst(j, from, to)) + ReplaceAll(rest, pat, Print(to))
    decreases j
  {
    hide ReplaceAll, PrintItems, PrintFields, Escape, Contains, SubstItems, SubstFields, Pattern;
    var put := Print(to);
    if j == from {
      Hit(rest, pat, core, put);
      return;
    }
    match j
    case Null => SkipLiteral(j, rest, pat, core, put);
    case Bool(_) => SkipLiteral(j, rest, pat, core, put);
    case Num(_) => SkipLiteral(j, rest, pat, core, put);
    case Str(s) => SkipQuoted(s, rest, pat, core, put);
    case Arr(items) =>
      assert Print(j) + rest == ['['] + (PrintItems(items) + ("]" + rest));
      SkipOne('[', PrintItems(items) + ("]" + rest), pat, core, put);
      ReplaceItems(items, rest, from, to, pat, core);
      assert Print(Subst(j, from, to)) + ReplaceAll(rest, pat, put)
          == ['['] + (PrintItems(SubstItems(items, from, to)) + ("]" + ReplaceAll(rest, pat, put)));
    case Obj(fields) =>
      assert Print(j) + rest == ['{'] + (PrintFields(fields) + ("}" + rest));
      OpenBrace(fields, rest, pat, core, put);
      ReplaceFields(fields, rest, from, to, pat, core);
      assert Print(Subst(j, from, to)) + ReplaceAll(rest, pat, put)
          == ['{'] + (PrintFields(SubstFields(fields, from, to)) + ("}" + ReplaceAll(rest, pat, put)));
  }

  lemma SkipLiteral(j: Json, rest: string, pat: string, core: string, put: string)
    requires Pattern(pat, core) && (j.Null? || j.Bool? || (j.Num? && ValidNumber(j.text)))
    ensures ReplaceAll(Print(j) + rest, pat, put) == Print(j) + ReplaceAll(rest, pat, put)
  {
    assert pat[0] == '\"' || pat[0] == '{';
    SkipText(Print(j), rest, pat, core, put);
  }

  /** An opening brace is followed by a quote or a closing brace, never by a second one. */
  lemma OpenBrace(fields: seq<Field>, rest: string, pat: string, core: string, put: string)
    requires Pattern(pat, core)
    ensures ReplaceAll(['{'] + (PrintFields(fields) + ("}" + rest)), pat, put)
         == ['{'] + ReplaceAll(PrintFields(fields) + ("}" + rest), pat, put)
  {
    hide FieldTail, PrintFields;
    FieldsUnfold(fields, rest);
    var t := PrintFields(fields) + ("}" + rest);
    assert t[0] == '\"' || t[0] == '}';
    assert (['{'] + t)[1] == t[0] && (['{'] + t)[0] == '{';
    assert pat[0] == '\"' || pat[1] == '{';
    ReplaceNext('{', t, pat, core, put);
  }

  lemma {:induction false} ReplaceItems(a: seq<Json>, x: string, from: Json, to: Json, pat: string, core: string)
    requires Leaf(from, pat, core) && CleanItems(a, from, core)
    ensures ReplaceAll(PrintItems(a) + ("]" + x), pat, Print(to))
         == PrintItems(SubstItems(a, from, to)) + ("]" + ReplaceAll(x, pat, Print(to)))
    decreases a, 0
  {
    hide ReplaceAll, Print, PrintItems, MoreItems, Pattern, Clean, Subst;
    var put := Print(to);
    var a' := SubstItems(a, from, to);
    ItemsUnfold(a, x);
    ItemsUnfold(a', ReplaceAll(x, pat, put));
    if a == [] {
      SkipOne(']', x, pat, core, put);
    } else {
      AfterItem(a[1..], x);
      ReplaceValue(a[0], MoreItems(a[1..]) + ("]" + x), from, to, pat, core);
      ReplaceMoreItems(a[1..], x, from, to, pat, core);
      assert a'[0] == Subst(a[0], from, to) && a'[1..] == SubstItems(a[1..], from, to);
    }
  }

  lemma {:induction false} ReplaceMoreItems(a: seq<Json>, x: string, from: Json, to: Json, pat: string, core: string)
    requires Leaf(from, pat, core) && CleanItems(a, from, core)
    ensures ReplaceAll(MoreItems(a) + ("]" + x), pat, Print(to))
         == MoreItems(SubstItems(a, from, to)) + ("]" + ReplaceAll(x, pat, Print(to)))
    decreases a, 1
  {
    hide ReplaceAll, Print, PrintItems, Pattern, Clean, Subst;
    var put := Print(to);
    if a == [] {
      assert MoreItems(a) + ("]" + x) == "]" + x;
      assert MoreItems(SubstItems(a, from, to)) + ("]" + ReplaceAll(x, pat, put)) == "]" + ReplaceAll(x, pat, put);
      SkipOne(']', x, pat, core, put);
    } else {
      var a' := SubstItems(a, from, to);
      Assoc(",", PrintItems(a), "]" + x);
      Assoc(",", PrintItems(a'), "]" + ReplaceAll(x, pat, put));
      SkipOne(',', PrintItems(a) + ("]" + x), pat, core, put);
      ReplaceItems(a, x, from, to, pat, core);
    }
  }

  lemma FieldText(a: seq<Field>, x: string)
    requires a != []
    ensures QUOTE + FieldTail(a, x) == PrintString(a[0].key) + ([':'] + (Print(a[0].value) + (MoreFields(a[1..]) + ("}" + x))))
  {
    hide Print, MoreFields, Escape;
  }

  lemma SkipKey(key: string, value: string, pat: string, core: string, put: string)
    requires pat != "" && Pattern(pat, core) && !Contains(key, core) && value != "" && value[0] != 'c'
    ensures ReplaceAll(PrintString(key) + ([':'] + value), pat, put) == PrintString(key) + ([':'] + ReplaceAll(value, pat, put))
  {
    hide ReplaceAll, Pattern, PrintString, Contains;
    SkipQuoted(key, [':'] + value, pat, core, put);
    SkipOne(':', value, pat, core, put);
  }

  lemma {:induction false} ReplaceFields(a: seq<Field>, x: string, from: Json, to: Json, pat: string, core: string)
    requires Leaf(from, pat, core) && CleanFields(a, from, core)
    ensures ReplaceAll(PrintFields(a) + ("}" + x), pat, Print(to))
         == PrintFields(SubstFields(a, from, to)) + ("}" + ReplaceAll(x, pat, Print(to)))
    decreases a, 0
  {
    hide ReplaceAll, Print, PrintFields, MoreFields, Pattern, Clean, Subst, Contains, PrintString, FieldTail, Follows;
    var put := Print(to);
    var a' := SubstFields(a, from, to);
    FieldsUnfold(a, x);
    FieldsUnfold(a', ReplaceAll(x, pat, put));
    if a == [] {
      SkipOne('}', x, pat, core, put);
    } else {
      var tail := MoreFields(a[1..]) + ("}" + x);
      FieldText(a, x);
      ValueStart(a[0].value, from, pat, core);
      assert (Print(a[0].value) + tail)[0] == Print(a[0].value)[0];
      SkipKey(a[0].key, Print(a[0].value) + tail, pat, core, put);
      FollowsField(a[1..], x);
      ReplaceValue(a[0].value, tail, from, to, pat, core);
      ReplaceMoreFields(a[1..], x, from, to, pat, core);
      assert a'[0] == Field(a[0].key, Subst(a[0].value, from, to)) && a'[1..] == SubstFields(a[1..], from, to);
      FieldText(a', ReplaceAll(x, pat, put));
    }
  }

  lemma FollowsField(a: seq<Field>, x: string)
    ensures Follows(MoreFields(a) + ("}" + x))
  {
    hide MoreFields;
    AfterField(a, x);
  }

  lemma {:induction false} ReplaceMoreFields(a: seq<Field>, x: string, from: Json, to: Json, pat: string, core: string)
    requires Leaf(from, pat, core) && CleanFields(a, from, core)
    ensures ReplaceAll(MoreFields(a) + ("}" + x), pat, Print(to))
         == MoreFields(SubstFields(a, from, to)) + ("}" + ReplaceAll(x, pat, Print(to)))
    decreases a, 1
  {
    hide ReplaceAll, Print, PrintFields, Pattern, Clean, Subst, Contains;
    var put := Print(to);
    if a == [] {
      assert MoreFields(a) + ("}" + x) == "}" + x;
      assert MoreFields(SubstFields(a, from, to)) + ("}" + ReplaceAll(x, pat, put)) == "}" + ReplaceAll(x, pat, put);
      SkipOne('}', x, pat, core, put);
    } else {
      var a' := SubstFields(a, from, to);
      Assoc(",", PrintFields(a), "}" + x);
      Assoc(",", PrintFields(a'), "}" + ReplaceAll(x, pat, put));
      SkipOne(',', PrintFields(a) + ("}" + x), pat, core, put);
      ReplaceFields(a, x, from, to, pat, core);
    }
  }

  // ----- freezing

  lemma {:induction false} PlainEscape(s: string, rest: string)
    requires forall i :: 0 <= i < |s| ==> Plain(s[i])
    ensures Escape(s + rest) == s + Escape(rest)
  {
    hide EscapeChar, Plain, Unicoded;
    if s == "" {
      assert s + rest == rest;
    } else {
      EscapeShape(s[0]);
      assert (s + rest)[1..] == s[1..] + rest && (s + rest)[0] == s[0];
      PlainEscape(s[1..], rest);
      assert Escape(s + rest) == EscapeChar(s[0]) + (s[1..] + Escape(rest));
      assert s == [s[0]] + s[1..];
    }
  }

  /** Printable ASCII that is no quote, backslash or HTML character is printed as it is. */
  predicate Simple(c: char) { ' ' <= c <= '~' && c != '\"' && c != '\\' && c != '<' && c != '>' && c != '&' }

  lemma SimpleIsPlain(s: string)
    requires forall i :: 0 <= i < |s| ==> Simple(s[i])
    ensures forall i :: 0 <= i < |s| ==> Plain(s[i])
  { }

  lemma MarkerText(marker: string)
    requires IsMarker(marker)
    ensures |marker| >= 2 && marker[0] == ':' && marker[1] == 'c'
    ensures forall i :: 0 <= i < |marker| ==> Simple(marker[i]) && marker[i] != '{'
  {
    hide Simple, Hexish;
    var uuid: string :| marker == PREFIX + uuid + ":" && forall i :: 0 <= i < |uuid| ==> Hexish(uuid[i]);
    PrefixText();
    JoinedText(PREFIX, uuid);
  }

  lemma JoinedText(prefix: string, uuid: string)
    requires |prefix| >= 2 && forall i :: 0 <= i < |prefix| ==> Simple(prefix[i]) && prefix[i] != '{'
    requires Simple(':') && forall i :: 0 <= i < |uuid| ==> Hexish(uuid[i])
    ensures var m := prefix + uuid + ":";
            m[0] == prefix[0] && m[1] == prefix[1] && forall i :: 0 <= i < |m| ==> Simple(m[i]) && m[i] != '{'
  {
    hide Simple, Hexish;
    forall i | 0 <= i < |uuid| ensures Simple(uuid[i]) && uuid[i] != '{' { HexishSimple(uuid[i]); }
  }

  lemma HexishSimple(c: char)
    requires Hexish(c)
    ensures Simple(c) && c != '{'
  { }

  lemma PrefixText()
    ensures forall i :: 0 <= i < |PREFIX| ==> Simple(PREFIX[i]) && PREFIX[i] != '{'
    ensures Simple(':') && |PREFIX| >= 2 && PREFIX[0] == ':' && PREFIX[1] == 'c'
  { }

  lemma MarkerLeaf(marker: string)
    requires IsMarker(marker)
    ensures Leaf(Str(marker), QUOTE + marker + QUOTE, marker)
  {
    hide Plain, Escape, Simple, IsMarker;
    MarkerText(marker);
    SimpleIsPlain(marker);
    PlainEscape(marker, "");
    EscapeNothing();
    assert marker + "" == marker;
  }

  lemma EscapeNothing()
    ensures Escape("") == ""
  { }

  lemma {:induction false} CandidateClean(j: Json, marker: string, parent: string)
    requires Valid(j) && CandidateScalars(j, marker, parent)
    ensures Clean(j, Str(marker), marker)
    decreases j
  {
    match j
    case Arr(items) =>
      forall i | 0 <= i < |items| ensures Clean(items[i], Str(marker), marker) { CandidateClean(items[i], marker, parent); }
    case Obj(fields) =>
      forall i | 0 <= i < |fields| ensures Clean(fields[i].value, Str(marker), marker) {
        CandidateClean(fields[i].value, marker, fields[i].key);
      }
    case _ =>
  }

  /** Freezing punches a hole for exactly the marker scalars of the tree, and changes nothing else. */
  lemma FreezeIsSubstitution(j: Json, marker: string)
    requires IsMarker(marker) && Valid(j) && CandidateScalars(j, marker, "")
    ensures Freeze(j, marker) == Ok(Print(Subst(j, Str(marker), Raw(HOLE))))
  {
    hide Print, Pattern, ReplaceAll, Subst, Clean, CandidateScalars;
    var pat := QUOTE + marker + QUOTE;
    MarkerLeaf(marker);
    CandidateClean(j, marker, "");
    ReplaceValue(j, "", Str(marker), Raw(HOLE), pat, marker);
    assert Print(Raw(HOLE)) == HOLE by { RawPrints(); }
    assert Print(j) + "" == Print(j);
    assert ReplaceAll("", pat, HOLE) == "" by { ReplaceNothing(pat, HOLE); }
    assert Print(Subst(j, Str(marker), Raw(HOLE))) + "" == Print(Subst(j, Str(marker), Raw(HOLE)));
  }

  lemma RawPrints()
    ensures Print(Raw(HOLE)) == HOLE
  { }

  lemma ReplaceNothing(pat: string, put: string)
    requires pat != ""
    ensures ReplaceAll("", pat, put) == ""
  { }

  // ----- filling the hole

  /** What Elasticsearch sends to a shard: the hole replaced by the suggestion as a JSON literal. */
  function Fill(frozen: string, suggestion: string): string { ReplaceAll(frozen, HOLE, PrintString(suggestion)) }

  /** The tree has no text of its own that looks like the hole. */
  predicate HoleFree(j: Json)
    decreases j
  {
    match j
    case Str(s) => !Contains(s, HOLE)
    case Arr(items) => forall i :: 0 <= i < |items| ==> HoleFree(items[i])
    case Obj(fields) => forall i :: 0 <= i < |fields| ==> !Contains(fields[i].key, HOLE) && HoleFree(fields[i].value)
    case _ => true
  }

  lemma HoleLeaf()
    ensures Leaf(Raw(HOLE), HOLE, HOLE)
  {
    hide Plain;
    assert forall i :: 0 <= i < |HOLE| ==> Simple(HOLE[i]);
    hide Simple;
    SimpleIsPlain(HOLE);
  }

  lemma {:induction false} CleanPunched(j: Json, marker: string)
    requires Valid(j) && HoleFree(j)
    ensures Clean(Subst(j, Str(marker), Raw(HOLE)), Raw(HOLE), HOLE)
    decreases j
  {
    match j
    case Arr(items) => CleanPunchedItems(items, marker);
    case Obj(fields) => CleanPunchedFields(fields, marker);
    case _ =>
  }

  lemma {:induction false} CleanPunchedItems(items: seq<Json>, marker: string)
    requires (forall i :: 0 <= i < |items| ==> Valid(items[i])) && forall i :: 0 <= i < |items| ==> HoleFree(items[i])
    ensures CleanItems(SubstItems(items, Str(marker), Raw(HOLE)), Raw(HOLE), HOLE)
    decreases items
  {
    if items != [] {
      CleanPunched(items[0], marker);
      CleanPunchedItems(items[1..], marker);
    }
  }

  lemma {:induction false} CleanPunchedFields(fields: seq<Field>, marker: string)
    requires forall i :: 0 <= i < |fields| ==> Valid(fields[i].value)
    requires forall i :: 0 <= i < |fields| ==> !Contains(fields[i].key, HOLE) && HoleFree(fields[i].value)
    ensures CleanFields(SubstFields(fields, Str(marker), Raw(HOLE)), Raw(HOLE), HOLE)
    decreases fields
  {
    if fields != [] {
      CleanPunched(fields[0].value, marker);
      CleanPunchedFields(fields[1..], marker);
    }
  }

  /** Punching holes and then filling them is substituting at once. */
  lemma {:induction false} SubstTwice(j: Json, from: Json, to: Json)
    requires Valid(j) && from.Str?
    ensures Subst(Subst(j, from, Raw(HOLE)), Raw(HOLE), to) == Subst(j, from, to)
    decreases j
  {
    match j
    case Arr(items) => SubstTwiceItems(items, from, to);
    case Obj(fields) => SubstTwiceFields(fields, from, to);
    case _ =>
  }

  lemma {:induction false} SubstTwiceItems(items: seq<Json>, from: Json, to: Json)
    requires (forall i :: 0 <= i < |items| ==> Valid(items[i])) && from.Str?
    ensures SubstItems(SubstItems(items, from, Raw(HOLE)), Raw(HOLE), to) == SubstItems(items, from, to)
    decreases items
  {
    if items != [] {
      SubstTwice(items[0], from, to);
      SubstTwiceItems(items[1..], from, to);
      assert SubstItems(items, from, Raw(HOLE))[1..] == SubstItems(items[1..], from, Raw(HOLE));
    }
  }

  lemma {:induction false} SubstTwiceFields(fields: seq<Field>, from: Json, to: Json)
    requires (forall i :: 0 <= i < |fields| ==> Valid(fields[i].value)) && from.Str?
    ensures SubstFields(SubstFields(fields, from, Raw(HOLE)), Raw(HOLE), to) == SubstFields(fields, from, to)
    decreases fields
  {
    if fields != [] {
      SubstTwice(fields[0].value, from, to);
      SubstTwiceFields(fields[1..], from, to);
      assert SubstFields(fields, from, Raw(HOLE))[1..] == SubstFields(fields[1..], from, Raw(HOLE));
    }
  }

  /** Filling the holes with the text of a value puts that value in the marker's places. */
  lemma FillWith(j: Json, marker: string, to: Json)
    requires IsMarker(marker) && Valid(j) && CandidateScalars(j, marker, "") && HoleFree(j)
    ensures ReplaceAll(Freeze(j, marker).value, HOLE, Print(to)) == Print(Subst(j, Str(marker), to))
  {
    hide Pattern, ReplaceAll, Subst, Clean, CandidateScalars, Valid, HoleFree, Freeze, Print;
    FreezeIsSubstitution(j, marker);
    var punched := Subst(j, Str(marker), Raw(HOLE));
    HoleLeaf();
    CleanPunched(j, marker);
    ReplaceValue(punched, "", Raw(HOLE), to, HOLE, HOLE);
    SubstTwice(j, Str(marker), to);
    assert Print(punched) + "" == Print(punched);
    ReplaceNothing(HOLE, Print(to));
    assert Print(Subst(j, Str(marker), to)) + "" == Print(Subst(j, Str(marker), to));
  }

  /** Whatever text the template engine writes for the suggestion, it ends up in the marker's places and nowhere else. */
  lemma FillWithLiteral(j: Json, marker: string, literal: string)
    requires IsMarker(marker) && Valid(j) && CandidateScalars(j, marker, "") && HoleFree(j)
    ensures ReplaceAll(Freeze(j, marker).value, HOLE, literal) == Print(Subst(j, Str(marker), Raw(literal)))
  {
    hide ReplaceAll, Subst, Freeze;
    FillWith(j, marker, Raw(literal));
  }

  /** Filling the frozen template gives the query with the suggestion in the marker's places. */
  lemma FillIsSubstitution(j: Json, marker: string, suggestion: string)
    requires IsMarker(marker) && Valid(j) && CandidateScalars(j, marker, "") && HoleFree(j)
    ensures Fill(Freeze(j, marker).value, suggestion) == Print(Subst(j, Str(marker), Str(suggestion)))
  {
    hide ReplaceAll, Subst, Freeze;
    FillWith(j, marker, Str(suggestion));
  }

  lemma {:induction false} SubstValid(j: Json, from: Json, x: string)
    requires Valid(j)
    ensures Valid(Subst(j, from, Str(x)))
    decreases j
  {
    match j
    case Arr(items) => SubstValidItems(items, from, x);
    case Obj(fields) => SubstValidFields(fields, from, x);
    case _ =>
  }

  lemma {:induction false} SubstValidItems(items: seq<Json>, from: Json, x: string)
    requires forall i :: 0 <= i < |items| ==> Valid(items[i])
    ensures ValidItems(SubstItems(items, from, Str(x)))
    decreases items
  {
    if items != [] {
      SubstValid(items[0], from, x);
      SubstValidItems(items[1..], from, x);
    }
  }

  lemma {:induction false} SubstValidFields(fields: seq<Field>, from: Json, x: string)
    requires forall i :: 0 <= i < |fields| ==> Valid(fields[i].value)
    ensures ValidFields(SubstFields(fields, from, Str(x)))
    decreases fields
  {
    if fields != [] {
      SubstValid(fields[0].value, from, x);
      SubstValidFields(fields[1..], from, x);
    }
  }

  /** Whatever the suggestion contains, the filled text is JSON, and reads as the query with the suggestion in its places. */
  lemma FilledReadsBack(j: Json, marker: string, suggestion: string)
    requires IsMarker(marker) && Valid(j) && CandidateScalars(j, marker, "") && HoleFree(j)
    ensures ReadText(Fill(Freeze(j, marker).value, suggestion)) == Some(Subst(j, Str(marker), Str(suggestion)))
  {
    hide Print, Subst, Valid, CandidateScalars, HoleFree, Fill, Freeze, ReadText;
    var tree := Subst(j, Str(marker), Str(suggestion));
    FillIsSubstitution(j, marker, suggestion);
    SubstValid(j, Str(marker), suggestion);
    TextReads(tree);
  }

  // ----- text of the tree that looks like the hole is filled as well

  /** How many holes ReplaceAll finds. */
  function Occurrences(t: string, pat: string): nat
    requires pat != ""
    decreases |t|
  {
    if |t| < |pat| then 0
    else if t[..|pat|] == pat then 1 + Occurrences(t[|pat|..], pat)
    else Occurrences(t[1..], pat)
  }

  lemma {:induction false} OccurrencesDrop(t: string, pat: string, k: nat)
    requires pat != "" && k <= |t|
    ensures Occurrences(t[k..], pat) <= Occurrences(t, pat)
    ensures k <= |pat| ==> Occurrences(t, pat) <= 1 + Occurrences(t[k..], pat)
    decreases |t|
  {
    if k == 0 {
      assert t[0..] == t;
    } else if |t| < |pat| {
    } else if t[..|pat|] == pat {
      if k <= |pat| {
        assert t[k..][|pat| - k..] == t[|pat|..];
        OccurrencesDrop(t[k..], pat, |pat| - k);
      } else {
        assert t[|pat|..][k - |pat|..] == t[k..];
        OccurrencesDrop(t[|pat|..], pat, k - |pat|);
      }
    } else {
      assert t[1..][k - 1..] == t[k..];
      OccurrencesDrop(t[1..], pat, k - 1);
    }
  }

  /** Joining texts loses no hole. */
  lemma {:induction false} OccurrencesConcat(u: string, v: string, pat: string)
    requires pat != ""
    ensures Occurrences(u, pat) + Occurrences(v, pat) <= Occurrences(u + v, pat)
    decreases |u|
  {
    if |u| < |pat| {
      OccurrencesDrop(u + v, pat, |u|);
      assert (u + v)[|u|..] == v;
    } else if u[..|pat|] == pat {
      assert (u + v)[..|pat|] == pat && (u + v)[|pat|..] == u[|pat|..] + v;
      OccurrencesConcat(u[|pat|..], v, pat);
    } else {
      OccurrencesDrop(u + v, pat, 1);
      assert (u + v)[1..] == u[1..] + v;
      OccurrencesConcat(u[1..], v, pat);
    }
  }

  lemma {:induction false} OccurrencesString(s: string)
    requires Contains(s, HOLE)
    ensures Occurrences(Escape(s), HOLE) >= 1
  {
    hide EscapeChar;
    if HOLE <= s {
      HoleLeaf();
      PlainEscape(HOLE, s[|HOLE|..]);
      assert s == HOLE + s[|HOLE|..];
      assert Escape(s)[..|HOLE|] == HOLE;
    } else {
      OccurrencesString(s[1..]);
      OccurrencesConcat(EscapeChar(s[0]), Escape(s[1..]), HOLE);
    }
  }

  /** The holes that were punched. */
  function Holes(j: Json): nat
    decreases j
  {
    match j
    case Raw(raw) => if raw == HOLE then 1 else 0
    case Arr(items) => HolesItems(items)
    case Obj(fields) => HolesFields(fields)
    case _ => 0
  }

  function HolesItems(items: seq<Json>): nat
    decreases items
  {
    if items == [] then 0 else Holes(items[0]) + HolesItems(items[1..])
  }

  function HolesFields(fields: seq<Field>): nat
    decreases fields
  {
    if fields == [] then 0 else Holes(fields[0].value) + HolesFields(fields[1..])
  }

  function Flag(b: bool): nat { if b then 1 else 0 }

  lemma Join(a: string, b: string, c: string)
    ensures Occurrences(a + b + c, HOLE) >= Occurrences(a, HOLE) + Occurrences(b, HOLE) + Occurrences(c, HOLE)
  {
    OccurrencesConcat(a, b, HOLE);
    OccurrencesConcat(a + b, c, HOLE);
  }

  lemma OccurrencesQuoted(s: string)
    ensures Occurrences(PrintString(s), HOLE) >= Flag(Contains(s, HOLE))
  {
    Join(QUOTE, Escape(s), QUOTE);
    if Contains(s, HOLE) { OccurrencesString(s); }
  }

  /** The printed tree shows at least the punched holes, and one more if the tree's own text has any. */
  lemma {:induction false} OccurrencesValue(j: Json)
    ensures Occurrences(Print(j), HOLE) >= Holes(j) + Flag(!HoleFree(j))
    decreases j
  {
    hide Occurrences, Escape, Contains;
    match j
    case Raw(raw) => if raw == HOLE { OneHole(); }
    case Str(s) => OccurrencesQuoted(s);
    case Arr(items) =>
      Join("[", PrintItems(items), "]");
      OccurrencesItems(items);
    case Obj(fields) =>
      Join("{", PrintFields(fields), "}");
      OccurrencesFields(fields);
    case _ =>
  }

  lemma OneHole()
    ensures Occurrences(HOLE, HOLE) >= 1
  { }

  ghost predicate FreeItems(items: seq<Json>) { forall i :: 0 <= i < |items| ==> HoleFree(items[i]) }

  ghost predicate FreeFields(fields: seq<Field>) {
    forall i :: 0 <= i < |fields| ==> !Contains(fields[i].key, HOLE) && HoleFree(fields[i].value)
  }

  lemma {:induction false} OccurrencesItems(items: seq<Json>)
    ensures Occurrences(PrintItems(items), HOLE) >= HolesItems(items) + Flag(!FreeItems(items))
    decreases items
  {
    hide Occurrences, Print, HoleFree;
    if items != [] {
      OccurrencesValue(items[0]);
      OccurrencesItems(items[1..]);
      OccurrencesConcat(Print(items[0]), MoreItems(items[1..]), HOLE);
      if items[1..] != [] { OccurrencesConcat(",", PrintItems(items[1..]), HOLE); }
      assert FreeItems(items[1..]) && HoleFree(items[0]) ==> FreeItems(items) by { assert items == [items[0]] + items[1..]; }
    }
  }

  lemma {:induction false} OccurrencesFields(fields: seq<Field>)
    ensures Occurrences(PrintFields(fields), HOLE) >= HolesFields(fields) + Flag(!FreeFields(fields))
    decreases fields
  {
    hide Occurrences, Print, PrintString, HoleFree, Contains;
    if fields != [] {
      var key, value := PrintString(fields[0].key), Print(fields[0].value);
      OccurrencesQuoted(fields[0].key);
      OccurrencesValue(fields[0].value);
      OccurrencesFields(fields[1..]);
      Join(key, ":", value);
      OccurrencesConcat(key + ":" + value, MoreFields(fields[1..]), HOLE);
      if fields[1..] != [] { OccurrencesConcat(",", PrintFields(fields[1..]), HOLE); }
      assert FreeFields(fields[1..]) && HoleFree(fields[0].value) && !Contains(fields[0].key, HOLE) ==> FreeFields(fields)
      by { assert fields == [fields[0]] + fields[1..]; }
    }
  }

  /** A replacement one longer than the hole makes the text longer by the number of holes found. */
  lemma {:induction false} ReplaceLength(t: string, put: string)
    requires |put| == |HOLE| + 1
    ensures |ReplaceAll(t, HOLE, put)| == |t| + Occurrences(t, HOLE)
    decreases |t|
  {
    if |t| < |HOLE| {
    } else if t[..|HOLE|] == HOLE {
      ReplaceLength(t[|HOLE|..], put);
    } else {
      ReplaceLength(t[1..], put);
    }
  }

  lemma {:induction false} SubstLength(j: Json, to: Json)
    requires |Print(to)| == |HOLE| + 1
    ensures |Print(Subst(j, Raw(HOLE), to))| == |Print(j)| + Holes(j)
    decreases j
  {
    hide PrintString;
    match j
    case Arr(items) => SubstLengthItems(items, to);
    case Obj(fields) => SubstLengthFields(fields, to);
    case _ =>
  }

  lemma {:induction false} SubstLengthItems(items: seq<Json>, to: Json)
    requires |Print(to)| == |HOLE| + 1
    ensures |PrintItems(SubstItems(items, Raw(HOLE), to))| == |PrintItems(items)| + HolesItems(items)
    decreases items
  {
    hide Print, Subst, Holes;
    if items != [] {
      SubstLength(items[0], to);
      SubstLengthItems(items[1..], to);
    }
  }

  lemma {:induction false} SubstLengthFields(fields: seq<Field>, to: Json)
    requires |Print(to)| == |HOLE| + 1
    ensures |PrintFields(SubstFields(fields, Raw(HOLE), to))| == |PrintFields(fields)| + HolesFields(fields)
    decreases fields
  {
    hide Print, Subst, Holes, PrintString;
    if fields != [] {
      SubstLength(fields[0].value, to);
      SubstLengthFields(fields[1..], to);
    }
  }

  lemma {:induction false} PunchedFree(j: Json, marker: string)
    requires Valid(j) && !Contains(marker, HOLE) && HoleFree(Subst(j, Str(marker), Raw(HOLE)))
    ensures HoleFree(j)
    decreases j
  {
    match j
    case Arr(items) => PunchedFreeItems(items, marker);
    case Obj(fields) => PunchedFreeFields(fields, marker);
    case _ =>
  }

  lemma {:induction false} PunchedFreeItems(items: seq<Json>, marker: string)
    requires (forall i :: 0 <= i < |items| ==> Valid(items[i])) && !Contains(marker, HOLE)
    requires FreeItems(SubstItems(items, Str(marker), Raw(HOLE)))
    ensures FreeItems(items)
    decreases items
  {
    if items != [] {
      var punched := SubstItems(items, Str(marker), Raw(HOLE));
      assert punched[0] == Subst(items[0], Str(marker), Raw(HOLE));
      assert punched[1..] == SubstItems(items[1..], Str(marker), Raw(HOLE));
      assert forall i :: 0 <= i < |punched[1..]| ==> punched[1..][i] == punched[i + 1];
      PunchedFree(items[0], marker);
      PunchedFreeItems(items[1..], marker);
      assert items == [items[0]] + items[1..];
    }
  }

  lemma {:induction false} PunchedFreeFields(fields: seq<Field>, marker: string)
    requires (forall i :: 0 <= i < |fields| ==> Valid(fields[i].value)) && !Contains(marker, HOLE)
    requires FreeFields(SubstFields(fields, Str(marker), Raw(HOLE)))
    ensures FreeFields(fields)
    decreases fields
  {
    if fields != [] {
      var punched := SubstFields(fields, Str(marker), Raw(HOLE));
      assert punched[0] == Field(fields[0].key, Subst(fields[0].value, Str(marker), Raw(HOLE)));
      assert punched[1..] == SubstFields(fields[1..], Str(marker), Raw(HOLE));
      assert forall i :: 0 <= i < |punched[1..]| ==> punched[1..][i] == punched[i + 1];
      PunchedFree(fields[0].value, marker);
      PunchedFreeFields(fields[1..], marker);
      assert fields == [fields[0]] + fields[1..];
    }
  }

  lemma {:induction false} NoBrace(s: string)
    requires forall i :: 0 <= i < |s| ==> s[i] != '{'
    ensures !Contains(s, HOLE)
  {
    assert HOLE[0] == '{';
    if s != "" { NoBrace(s[1..]); }
  }

  function Filler(n: nat): (s: string)
    ensures |s| == n && forall i :: 0 <= i < n ==> s[i] == 'a'
  {
    seq(n, i => 'a')
  }

  /** A suggestion whose literal is one longer than the hole tells a wrong filling by its length. */
  lemma LongSuggestion() returns (x: string)
    ensures |PrintString(x)| == |HOLE| + 1
  {
    x := Filler(|HOLE| - 1);
    assert forall i :: 0 <= i < |x| ==> Simple(x[i]);
    SimpleIsPlain(x);
    PlainEscape(x, "");
    assert x + "" == x;
  }

  /** Freezing keeps the meaning of the query, for every suggestion, exactly when no key and no string of the rendered
      query contains the text of the hole. */
  lemma FillExactIffHoleFree(j: Json, marker: string)
    requires IsMarker(marker) && Valid(j) && CandidateScalars(j, marker, "")
    ensures (forall x: string :: Fill(Freeze(j, marker).value, x) == Print(Subst(j, Str(marker), Str(x)))) <==> HoleFree(j)
  {
    hide Print, Subst, Valid, CandidateScalars, HoleFree, Freeze, Occurrences, ReplaceAll, PrintString;
    if HoleFree(j) {
      forall x: string { FillIsSubstitution(j, marker, x); }
    } else {
      var x := LongSuggestion();
      var punched := Subst(j, Str(marker), Raw(HOLE));
      FreezeIsSubstitution(j, marker);
      ReplaceLength(Print(punched), PrintString(x));
      assert Print(Str(x)) == PrintString(x) by { StringPrints(x); }
      SubstLength(punched, Str(x));
      SubstTwice(j, Str(marker), Str(x));
      OccurrencesValue(punched);
      assert !HoleFree(punched) by {
        if HoleFree(punched) {
          MarkerText(marker);
          NoBrace(marker);
          PunchedFree(j, marker);
        }
      }
    }
  }

  lemma StringPrints(x: string)
    ensures Print(Str(x)) == PrintString(x)
  { }
}
