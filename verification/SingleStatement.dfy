/** The lexical boundary before DuckDB prepares a query: at most one statement. */
module SingleStatement {
  import opened Common

  // ----- the lexical grammar

  predicate Starts(s: string, a: char, b: char) { |s| >= 2 && s[0] == a && s[1] == b }

  predicate Word(c: char) { c == '_' || 'A' <= c <= 'Z' || 'a' <= c <= 'z' || '0' <= c <= '9' }

  predicate Blank(c: char) { c == ' ' || c == '\n' || c == '\r' || c == '\t' }

  predicate Mark(c: char) { c == '\'' || c == '\"' || c == '`' }

  /** What follows the opening of a block comment, up to and including its close. */
  datatype Body = Close | Char(c: char, tail: Body) | Nested(inner: Body, tail: Body)

  function BodyText(b: Body): string {
    match b
    case Close => ['*', '/']
    case Char(c, tail) => [c] + BodyText(tail)
    case Nested(inner, tail) => ['/', '*'] + BodyText(inner) + BodyText(tail)
  }

  /** No character of the comment starts an opening or a closing that the tree does not show. */
  predicate BodyOk(b: Body) {
    match b
    case Close => true
    case Char(c, tail) => !Starts([c] + BodyText(tail), '/', '*') && !Starts([c] + BodyText(tail), '*', '/') && BodyOk(tail)
    case Nested(inner, tail) => BodyOk(inner) && BodyOk(tail)
  }

  /** The contents of a quoted string or name, every quote mark in it written twice. */
  function Doubled(contents: string, mark: char): string {
    if contents == "" then ""
    else (if contents[0] == mark then [mark, mark] else [contents[0]]) + Doubled(contents[1..], mark)
  }

  datatype Segment =
    | Code(c: char)
    | Line(line: string, ended: bool)
    | Block(body: Body)
    | Quoted(mark: char, contents: string)
    | Dollar(name: string, dollarBody: string)

  function Tag(name: string): string { ['$'] + name + ['$'] }

  ghost predicate Name(name: string) { forall i :: 0 <= i < |name| ==> Word(name[i]) }

  function Text(g: Segment): string {
    match g
    case Code(c) => [c]
    case Line(line, ended) => ['-', '-'] + line + if ended then ['\n'] else []
    case Block(body) => ['/', '*'] + BodyText(body)
    case Quoted(mark, contents) => [mark] + Doubled(contents, mark) + [mark]
    case Dollar(name, body) => Tag(name) + body + Tag(name)
  }

  ghost predicate OpensDollar(s: string) { exists name :: Name(name) && Tag(name) <= s }

  /** The tag after the body is the first one. */
  ghost predicate FirstClose(body: string, tag: string) { forall j :: 0 <= j < |body| ==> !(tag <= (body + tag)[j..]) }

  /** g is the next segment of a text that goes on with rest. */
  ghost predicate Lexes(g: Segment, rest: string) {
    match g
    case Code(c) =>
      && !Mark(c) && !Starts([c] + rest, '-', '-') && !Starts([c] + rest, '/', '*') && !OpensDollar([c] + rest)
    case Line(line, ended) => '\n' !in line && (ended || rest == "")
    case Block(body) => BodyOk(body)
    case Quoted(mark, contents) => Mark(mark) && (rest == "" || rest[0] != mark)
    case Dollar(name, body) => Name(name) && FirstClose(body, Tag(name))
  }

  /** The query is cut into segs; only a line comment may be left open, by the end of the query. */
  ghost predicate Segmented(query: string, segs: seq<Segment>)
    decreases |segs|
  {
    if segs == [] then query == ""
    else
      var text := Text(segs[0]);
      text <= query && Lexes(segs[0], query[|text|..]) && Segmented(query[|text|..], segs[1..])
  }

  predicate Trailing(g: Segment) { g.Line? || g.Block? || (g.Code? && Blank(g.c)) }

  /** Top-level code has at most one semicolon, with only blanks and comments after it. */
  ghost predicate OneStatement(segs: seq<Segment>) {
    forall i, j :: 0 <= i < j < |segs| && segs[i] == Code(';') ==> Trailing(segs[j])
  }

  ghost predicate Accepted(query: string) {
    exists segs :: Segmented(query, segs) && OneStatement(segs)
  }

  // ----- the scanner as a function of the rest of the text

  datatype State = Top | InLine | InBlock(depth: nat) | InDollar(tag: string) | InQuote(mark: char)

  /** The length of the longest prefix of word characters. */
  function WordRun(s: string): (n: nat)
    ensures n <= |s| && (forall i :: 0 <= i < n ==> Word(s[i])) && (n < |s| ==> !Word(s[n]))
  {
    if s == "" || !Word(s[0]) then 0 else 1 + WordRun(s[1..])
  }

  /** The dollar tag at the start of s, if there is one. */
  function TagAt(s: string): (tag: string)
    requires s != ""
    ensures tag == "" || (tag <= s && |tag| >= 2)
  {
    var n := WordRun(s[1..]);
    if s[0] == '$' && 1 + n < |s| && s[1 + n] == '$' then s[..n + 2] else ""
  }

  function Scan(state: State, semicolon: bool, s: string): bool
    decreases |s|
  {
    if s == "" then state.Top? || state.InLine?
    else match state
      case Top =>
        if semicolon && !Blank(s[0]) && !Starts(s, '-', '-') && !Starts(s, '/', '*') then false
        else if Starts(s, '-', '-') then Scan(InLine, semicolon, s[2..])
        else if Starts(s, '/', '*') then Scan(InBlock(1), semicolon, s[2..])
        else if Mark(s[0]) then Scan(InQuote(s[0]), semicolon, s[1..])
        else if TagAt(s) != "" then Scan(InDollar(TagAt(s)), semicolon, s[|TagAt(s)|..])
        else if s[0] == ';' then !semicolon && Scan(Top, true, s[1..])
        else Scan(Top, semicolon, s[1..])
      case InLine => Scan(if s[0] == '\n' then Top else InLine, semicolon, s[1..])
      case InBlock(depth) =>
        if Starts(s, '/', '*') then Scan(InBlock(depth + 1), semicolon, s[2..])
        else if Starts(s, '*', '/') then Scan(if depth <= 1 then Top else InBlock(depth - 1), semicolon, s[2..])
        else Scan(InBlock(depth), semicolon, s[1..])
      case InDollar(tag) =>
        if tag != "" && tag <= s then Scan(Top, semicolon, s[|tag|..]) else Scan(InDollar(tag), semicolon, s[1..])
      case InQuote(mark) =>
        if s[0] != mark then Scan(state, semicolon, s[1..])
        else if Starts(s, mark, mark) then Scan(state, semicolon, s[2..])
        else Scan(Top, semicolon, s[1..])
  }

  // ----- each kind of segment is skipped exactly

  lemma {:induction false} LineSkips(line: string, semicolon: bool, rest: string)
    requires '\n' !in line
    ensures Scan(InLine, semicolon, line)
    ensures Scan(InLine, semicolon, line + ['\n'] + rest) == Scan(Top, semicolon, rest)
  {
    var s := line + ['\n'] + rest;
    if line == "" {
      assert s[1..] == rest;
    } else {
      LineSkips(line[1..], semicolon, rest);
      assert s[1..] == line[1..] + ['\n'] + rest;
    }
  }

  lemma TextLong(b: Body)
    ensures |BodyText(b)| >= 2
  { }

  lemma CloseSplits(rest: string)
    ensures BodyOk(Close) && ['*', '/'] + rest == BodyText(Close) + rest
  { }

  lemma CharSplits(c: char, tail: Body, rest: string)
    ensures var s := [c] + (BodyText(tail) + rest);
            BodyOk(Char(c, tail)) <==> BodyOk(tail) && !Starts(s, '/', '*') && !Starts(s, '*', '/')
    ensures [c] + (BodyText(tail) + rest) == BodyText(Char(c, tail)) + rest
  {
    TextLong(tail);
    var s := [c] + (BodyText(tail) + rest);
    assert s[0] == ([c] + BodyText(tail))[0] && s[1] == ([c] + BodyText(tail))[1];
  }

  lemma NestedSplits(inner: Body, tail: Body, rest: string)
    ensures BodyOk(Nested(inner, tail)) <==> BodyOk(inner) && BodyOk(tail)
    ensures ['/', '*'] + (BodyText(inner) + (BodyText(tail) + rest)) == BodyText(Nested(inner, tail)) + rest
  { }

  lemma {:induction false} BlockSkips(b: Body, depth: nat, semicolon: bool, rest: string)
    requires BodyOk(b) && depth > 0
    ensures Scan(InBlock(depth), semicolon, BodyText(b) + rest)
         == Scan(if depth == 1 then Top else InBlock(depth - 1), semicolon, rest)
    decreases b
  {
    hide BodyText, BodyOk;
    match b
    case Close =>
      CloseSplits(rest);
      assert (['*', '/'] + rest)[2..] == rest;
    case Char(c, tail) =>
      CharSplits(c, tail, rest);
      var after := BodyText(tail) + rest;
      assert ([c] + after)[1..] == after;
      BlockSkips(tail, depth, semicolon, rest);
    case Nested(inner, tail) =>
      NestedSplits(inner, tail, rest);
      var after := BodyText(inner) + (BodyText(tail) + rest);
      assert (['/', '*'] + after)[2..] == after;
      BlockSkips(inner, depth + 1, semicolon, BodyText(tail) + rest);
      BlockSkips(tail, depth, semicolon, rest);
  }

  lemma {:induction false} QuoteSkips(contents: string, mark: char, semicolon: bool, rest: string)
    requires rest == "" || rest[0] != mark
    ensures Scan(InQuote(mark), semicolon, Doubled(contents, mark) + [mark] + rest) == Scan(Top, semicolon, rest)
  {
    var s := Doubled(contents, mark) + [mark] + rest;
    if contents == "" {
      assert s[1..] == rest;
    } else {
      QuoteSkips(contents[1..], mark, semicolon, rest);
      var k := if contents[0] == mark then 2 else 1;
      assert s[k..] == Doubled(contents[1..], mark) + [mark] + rest;
    }
  }

  lemma FirstCloseHead(body: string, tag: string, rest: string)
    requires body != "" && FirstClose(body, tag)
    ensures !(tag <= body + tag + rest)
  {
    assert (body + tag)[0..] == body + tag;
    assert (body + tag)[..|tag|] == (body + tag + rest)[..|tag|];
  }

  lemma FirstCloseTail(body: string, tag: string)
    requires body != "" && FirstClose(body, tag)
    ensures FirstClose(body[1..], tag)
  {
    forall j | 0 <= j < |body[1..]| ensures !(tag <= (body[1..] + tag)[j..]) {
      assert (body[1..] + tag)[j..] == (body + tag)[j + 1..];
    }
  }

  lemma {:induction false} DollarSkips(body: string, tag: string, semicolon: bool, rest: string)
    requires tag != "" && FirstClose(body, tag)
    ensures Scan(InDollar(tag), semicolon, body + tag + rest) == Scan(Top, semicolon, rest)
  {
    hide FirstClose;
    var s := body + tag + rest;
    if body == "" {
      assert s[|tag|..] == rest;
    } else {
      FirstCloseHead(body, tag, rest);
      FirstCloseTail(body, tag);
      DollarSkips(body[1..], tag, semicolon, rest);
      assert s[1..] == body[1..] + tag + rest;
    }
  }

  lemma {:induction false} WordRunIs(name: string, rest: string)
    requires Name(name) && (rest == "" || !Word(rest[0]))
    ensures WordRun(name + rest) == |name|
  {
    if name == "" {
      assert name + rest == rest;
    } else {
      assert (name + rest)[1..] == name[1..] + rest;
      WordRunIs(name[1..], rest);
    }
  }

  lemma TagIs(s: string, name: string)
    requires Name(name) && Tag(name) <= s
    ensures s[0] == '$' && TagAt(s) == Tag(name)
  {
    var rest := s[1 + |name|..];
    assert s[0] == Tag(name)[0] && s[1 + |name|] == Tag(name)[1 + |name|];
    assert s[1..] == name + rest by {
      assert s == Tag(name) + s[|Tag(name)|..];
    }
    WordRunIs(name, rest);
    assert s[..|name| + 2] == Tag(name);
  }

  lemma TagOpens(s: string)
    requires s != ""
    ensures OpensDollar(s) <==> TagAt(s) != ""
    ensures TagAt(s) != "" ==> exists name :: Name(name) && TagAt(s) == Tag(name)
  {
    if TagAt(s) != "" {
      var name := s[1..|TagAt(s)| - 1];
      forall i | 0 <= i < |name| ensures Word(name[i]) { assert name[i] == s[1..][i]; }
      assert TagAt(s) == Tag(name);
    } else if OpensDollar(s) {
      var name :| Name(name) && Tag(name) <= s;
      TagIs(s, name);
    }
  }

  // ----- segments and the scanner

  lemma CodePasses(c: char, semicolon: bool, rest: string)
    requires Lexes(Code(c), rest)
    ensures Scan(Top, semicolon, [c] + rest)
         == ((semicolon ==> Trailing(Code(c))) && Scan(Top, semicolon || c == ';', rest))
  {
    var s := [c] + rest;
    TagOpens(s);
    hide OpensDollar, TagAt;
    assert s[1..] == rest;
  }

  lemma Regroup(a: string, b: string, c: string, d: string)
    ensures a + b + c + d == a + (b + c + d)
  { }

  lemma LinePasses(line: string, ended: bool, semicolon: bool, rest: string)
    requires Lexes(Line(line, ended), rest)
    ensures Scan(Top, semicolon, Text(Line(line, ended)) + rest) == Scan(Top, semicolon, rest)
  {
    LineSkips(line, semicolon, rest);
    if ended {
      Regroup(['-', '-'], line, ['\n'], rest);
      LineStarts(semicolon, line + ['\n'] + rest);
    } else {
      LineStarts(semicolon, line);
      assert Text(Line(line, ended)) + rest == ['-', '-'] + line;
    }
  }

  lemma LineStarts(semicolon: bool, after: string)
    ensures Scan(Top, semicolon, ['-', '-'] + after) == Scan(InLine, semicolon, after)
  {
    assert (['-', '-'] + after)[2..] == after;
  }

  lemma BlockPasses(body: Body, semicolon: bool, rest: string)
    requires BodyOk(body)
    ensures Scan(Top, semicolon, Text(Block(body)) + rest) == Scan(Top, semicolon, rest)
  {
    var after := BodyText(body) + rest;
    assert Text(Block(body)) + rest == ['/', '*'] + after;
    assert (['/', '*'] + after)[2..] == after;
    BlockSkips(body, 1, semicolon, rest);
    hide BodyText, BodyOk;
  }

  lemma QuotedPasses(mark: char, contents: string, semicolon: bool, rest: string)
    requires Lexes(Quoted(mark, contents), rest)
    ensures Scan(Top, semicolon, Text(Quoted(mark, contents)) + rest) == (!semicolon && Scan(Top, semicolon, rest))
  {
    var after := Doubled(contents, mark) + [mark] + rest;
    QuoteSkips(contents, mark, semicolon, rest);
    assert Text(Quoted(mark, contents)) + rest == [mark] + after;
    QuoteStarts(mark, semicolon, after);
  }

  lemma QuoteStarts(mark: char, semicolon: bool, after: string)
    requires Mark(mark)
    ensures Scan(Top, semicolon, [mark] + after) == (!semicolon && Scan(InQuote(mark), semicolon, after))
  {
    assert ([mark] + after)[1..] == after;
  }

  lemma DollarText(name: string, body: string, rest: string)
    ensures Text(Dollar(name, body)) + rest == Tag(name) + (body + Tag(name) + rest)
  {
    Regroup(Tag(name), body, Tag(name), rest);
    hide Tag;
  }

  lemma DollarLexes(name: string, body: string, rest: string)
    ensures Lexes(Dollar(name, body), rest) <==> Name(name) && FirstClose(body, Tag(name))
    ensures Tag(name) != ""
  {
    hide FirstClose, Name;
  }

  lemma DollarPasses(name: string, body: string, semicolon: bool, rest: string)
    requires Lexes(Dollar(name, body), rest)
    ensures Scan(Top, semicolon, Text(Dollar(name, body)) + rest) == (!semicolon && Scan(Top, semicolon, rest))
  {
    DollarLexes(name, body, rest);
    hide Lexes, Scan, Tag, Text, FirstClose, Name;
    DollarSkips(body, Tag(name), semicolon, rest);
    DollarText(name, body, rest);
    DollarStarts(name, semicolon, body + Tag(name) + rest);
  }

  lemma DollarStarts(name: string, semicolon: bool, after: string)
    requires Name(name)
    ensures Scan(Top, semicolon, Tag(name) + after) == (!semicolon && Scan(InDollar(Tag(name)), semicolon, after))
  {
    var s := Tag(name) + after;
    TagIs(s, name);
    assert s[|Tag(name)|..] == after;
    assert |s| >= 2;
    hide TagAt, Tag;
  }

  lemma BlockLexes(body: Body, rest: string)
    requires Lexes(Block(body), rest)
    ensures BodyOk(body)
  { }

  /** The scanner passes over one segment, and refuses it exactly when it comes too late. */
  lemma SegmentPasses(g: Segment, semicolon: bool, rest: string)
    requires Lexes(g, rest)
    ensures Scan(Top, semicolon, Text(g) + rest)
         == ((semicolon ==> Trailing(g)) && Scan(Top, semicolon || g == Code(';'), rest))
  {
    hide Scan, Lexes;
    match g
    case Code(c) => CodePasses(c, semicolon, rest);
    case Line(line, ended) => LinePasses(line, ended, semicolon, rest);
    case Block(body) => BlockLexes(body, rest); BlockPasses(body, semicolon, rest);
    case Quoted(mark, contents) => QuotedPasses(mark, contents, semicolon, rest);
    case Dollar(name, body) => DollarPasses(name, body, semicolon, rest);
  }

  lemma NoStatement(semicolon: bool)
    ensures Scan(Top, semicolon, "") && OneStatement([])
  { }

  /** On a text that can be segmented the scanner decides the semicolon rule. */
  lemma {:induction false} SegmentedDecides(s: string, segs: seq<Segment>, semicolon: bool)
    requires Segmented(s, segs)
    ensures Scan(Top, semicolon, s)
         <==> OneStatement(segs) && (semicolon ==> forall j :: 0 <= j < |segs| ==> Trailing(segs[j]))
    decreases |segs|
  {
    hide Scan, Lexes, Text, OneStatement;
    NoStatement(semicolon);
    if segs != [] {
      var g, tail := segs[0], segs[1..];
      var rest := s[|Text(g)|..];
      assert s == Text(g) + rest;
      SegmentPasses(g, semicolon, rest);
      SegmentedDecides(rest, tail, semicolon || g == Code(';'));
      OneStatementCons(g, tail);
      assert segs == [g] + tail;
    }
  }

  lemma OneStatementCons(g: Segment, tail: seq<Segment>)
    ensures OneStatement([g] + tail)
       <==> OneStatement(tail) && (g == Code(';') ==> forall j :: 0 <= j < |tail| ==> Trailing(tail[j]))
  {
    var segs := [g] + tail;
    if OneStatement(segs) {
      forall i, j | 0 <= i < j < |tail| && tail[i] == Code(';') ensures Trailing(tail[j]) {
        assert segs[i + 1] == tail[i] && segs[j + 1] == tail[j];
      }
      forall j | 0 <= j < |tail| && g == Code(';') ensures Trailing(tail[j]) { assert segs[j + 1] == tail[j] && segs[0] == g; }
    }
  }

  // ----- a text the scanner accepts can be segmented

  lemma LineSplits(after: string) returns (line: string, ended: bool, rest: string)
    ensures after == line + (if ended then ['\n'] else []) + rest && Lexes(Line(line, ended), rest)
  {
    if after == "" {
      line, ended, rest := "", false, "";
    } else if after[0] == '\n' {
      line, ended, rest := "", true, after[1..];
    } else {
      line, ended, rest := LineSplits(after[1..]);
      line := [after[0]] + line;
    }
  }

  lemma {:induction false} QuoteSplits(after: string, mark: char, semicolon: bool) returns (contents: string, rest: string)
    requires Scan(InQuote(mark), semicolon, after)
    ensures after == Doubled(contents, mark) + [mark] + rest && (rest == "" || rest[0] != mark)
    decreases |after|
  {
    if after[0] == mark && !Starts(after, mark, mark) {
      contents, rest := "", after[1..];
    } else {
      var k := if after[0] == mark then 2 else 1;
      var tail;
      tail, rest := QuoteSplits(after[k..], mark, semicolon);
      contents := [after[0]] + tail;
      assert contents[1..] == tail;
      assert after == after[..k] + after[k..];
    }
  }

  lemma FirstCloseCons(c: char, body: string, tag: string, rest: string)
    requires FirstClose(body, tag) && !(tag <= [c] + body + tag + rest)
    ensures FirstClose([c] + body, tag)
  {
    forall j | 0 <= j < |body| + 1 ensures !(tag <= ([c] + body + tag)[j..]) {
      if j > 0 {
        assert ([c] + body + tag)[j..] == (body + tag)[j - 1..];
      } else {
        assert ([c] + body + tag)[0..] == [c] + body + tag;
        assert ([c] + body + tag)[..|tag|] == ([c] + body + tag + rest)[..|tag|];
      }
    }
  }

  lemma {:induction false} DollarSplits(after: string, tag: string, semicolon: bool) returns (body: string, rest: string)
    requires tag != "" && Scan(InDollar(tag), semicolon, after)
    ensures after == body + tag + rest && FirstClose(body, tag)
    decreases |after|
  {
    if tag <= after {
      body, rest := "", after[|tag|..];
    } else {
      var tail;
      tail, rest := DollarSplits(after[1..], tag, semicolon);
      body := [after[0]] + tail;
      assert after == [after[0]] + after[1..];
      assert after == body + tag + rest;
      FirstCloseCons(after[0], tail, tag, rest);
    }
  }

  lemma {:induction false} BlockSplits(after: string, depth: nat, semicolon: bool) returns (body: Body, rest: string)
    requires depth > 0 && Scan(InBlock(depth), semicolon, after)
    ensures BodyOk(body) && after == BodyText(body) + rest
    ensures Scan(if depth == 1 then Top else InBlock(depth - 1), semicolon, rest)
    decreases |after|
  {
    hide BodyOk, BodyText;
    if Starts(after, '/', '*') {
      var inner, middle := BlockSplits(after[2..], depth + 1, semicolon);
      assert |middle| < |after|;
      var tail;
      tail, rest := BlockSplits(middle, depth, semicolon);
      body := Nested(inner, tail);
      assert after == ['/', '*'] + after[2..];
      NestedSplits(inner, tail, rest);
    } else if Starts(after, '*', '/') {
      body, rest := Close, after[2..];
      assert after == ['*', '/'] + after[2..];
      CloseSplits(rest);
    } else {
      var tail;
      tail, rest := BlockSplits(after[1..], depth, semicolon);
      body := Char(after[0], tail);
      assert after == [after[0]] + after[1..];
      CharSplits(after[0], tail, rest);
    }
  }

  lemma OpensLine(s: string) returns (g: Segment, rest: string)
    requires Starts(s, '-', '-')
    ensures s == Text(g) + rest && Lexes(g, rest)
  {
    var line, ended;
    line, ended, rest := LineSplits(s[2..]);
    g := Line(line, ended);
    assert s == ['-', '-'] + s[2..];
  }

  lemma OpensBlock(s: string, semicolon: bool) returns (g: Segment, rest: string)
    requires Starts(s, '/', '*') && Scan(InBlock(1), semicolon, s[2..])
    ensures s == Text(g) + rest && Lexes(g, rest)
  {
    var body;
    body, rest := BlockSplits(s[2..], 1, semicolon);
    g := Block(body);
    assert s == ['/', '*'] + s[2..];
    hide Scan, BodyText, BodyOk;
  }

  lemma OpensQuote(s: string, semicolon: bool) returns (g: Segment, rest: string)
    requires s != "" && Mark(s[0]) && Scan(InQuote(s[0]), semicolon, s[1..])
    ensures s == Text(g) + rest && Lexes(g, rest)
  {
    var contents;
    contents, rest := QuoteSplits(s[1..], s[0], semicolon);
    g := Quoted(s[0], contents);
    assert s == [s[0]] + s[1..];
    hide Scan, Doubled;
  }

  lemma OpensDollarQuote(s: string, semicolon: bool) returns (g: Segment, rest: string)
    requires s != "" && TagAt(s) != "" && Scan(InDollar(TagAt(s)), semicolon, s[|TagAt(s)|..])
    ensures s == Text(g) + rest && Lexes(g, rest)
  {
    TagOpens(s);
    var tag := TagAt(s);
    assert s == tag + s[|tag|..];
    hide Scan, TagAt, FirstClose, Tag, Text, Lexes, Name;
    var name :| Name(name) && TagAt(s) == Tag(name);
    var body;
    body, rest := DollarSplits(s[|tag|..], tag, semicolon);
    g := Dollar(name, body);
    DollarText(name, body, rest);
    DollarLexes(name, body, rest);
  }

  lemma FirstSegment(s: string, semicolon: bool) returns (g: Segment, rest: string)
    requires s != "" && Scan(Top, semicolon, s)
    ensures s == Text(g) + rest && Lexes(g, rest)
  {
    hide Text, Lexes, TagAt;
    if Starts(s, '-', '-') {
      g, rest := OpensLine(s);
    } else if Starts(s, '/', '*') {
      g, rest := OpensBlock(s, semicolon);
    } else if Mark(s[0]) {
      g, rest := OpensQuote(s, semicolon);
    } else if TagAt(s) != "" {
      g, rest := OpensDollarQuote(s, semicolon);
    } else {
      g, rest := Code(s[0]), s[1..];
      assert s == [s[0]] + s[1..];
      CodeOpens(s[0], s[1..]);
    }
  }

  lemma CodeOpens(c: char, rest: string)
    requires var s := [c] + rest; !Mark(c) && !Starts(s, '-', '-') && !Starts(s, '/', '*') && TagAt(s) == ""
    ensures Lexes(Code(c), rest) && Text(Code(c)) == [c]
  {
    TagOpens([c] + rest);
  }

  lemma {:induction false} ScanSegments(s: string, semicolon: bool) returns (segs: seq<Segment>)
    requires Scan(Top, semicolon, s)
    ensures Segmented(s, segs)
    decreases |s|
  {
    if s == "" {
      segs := [];
    } else {
      var g, rest := FirstSegment(s, semicolon);
      SegmentPasses(g, semicolon, rest);
      TextNotEmpty(g);
      var tail := ScanSegments(rest, semicolon || g == Code(';'));
      segs := [g] + tail;
      assert s[|Text(g)|..] == rest && segs[1..] == tail;
      hide Scan, Lexes, Text;
    }
  }

  lemma TextNotEmpty(g: Segment)
    ensures Text(g) != ""
  { }

  /** The scanner accepts exactly the queries of one statement. */
  lemma ScanIsAccepted(query: string)
    ensures Scan(Top, false, query) <==> Accepted(query)
  {
    if Scan(Top, false, query) {
      var segs := ScanSegments(query, false);
      SegmentedDecides(query, segs, false);
    } else if Accepted(query) {
      var segs :| Segmented(query, segs) && OneStatement(segs);
      SegmentedDecides(query, segs, false);
    }
  }

  // ----- a text is cut in one way only

  lemma {:induction false} BodyUnique(a: Body, b: Body, r: string, q: string)
    requires BodyOk(a) && BodyOk(b) && BodyText(a) + r == BodyText(b) + q
    ensures a == b
    decreases a
  {
    hide BodyText, BodyOk;
    BodyStarts(a, r);
    BodyStarts(b, q);
    match a
    case Close => { }
    case Char(c, tail) => BodyUnique(tail, b.tail, r, q);
    case Nested(inner, tail) =>
      BodyUnique(inner, b.inner, BodyText(tail) + r, BodyText(b.tail) + q);
      NestedRests(inner, BodyText(tail) + r, BodyText(b.tail) + q);
      BodyUnique(tail, b.tail, r, q);
  }

  lemma NestedRests(inner: Body, r: string, q: string)
    requires BodyText(inner) + r == BodyText(inner) + q
    ensures r == q
  {
    var k := |BodyText(inner)|;
    assert (BodyText(inner) + r)[k..] == r && (BodyText(inner) + q)[k..] == q;
    hide BodyText;
  }

  /** The first characters of a comment body tell its form, and what follows them is the rest of the tree. */
  lemma BodyStarts(b: Body, rest: string)
    requires BodyOk(b)
    ensures var s := BodyText(b) + rest;
            && s != "" && (b.Close? <==> Starts(s, '*', '/')) && (b.Nested? <==> Starts(s, '/', '*'))
            && (b.Char? ==> BodyOk(b.tail) && s[0] == b.c && s[1..] == BodyText(b.tail) + rest)
            && (b.Nested? ==> BodyOk(b.inner) && BodyOk(b.tail)
                              && s[2..] == BodyText(b.inner) + (BodyText(b.tail) + rest))
  {
    match b
    case Close => CloseSplits(rest);
    case Char(c, tail) =>
      CharSplits(c, tail, rest);
      hide BodyText;
      assert ([c] + (BodyText(tail) + rest))[1..] == BodyText(tail) + rest;
    case Nested(inner, tail) =>
      NestedSplits(inner, tail, rest);
      hide BodyText;
      var after := BodyText(inner) + (BodyText(tail) + rest);
      assert (['/', '*'] + after)[2..] == after;
  }

  lemma {:induction false} QuoteUnique(a: string, b: string, mark: char, r: string, q: string)
    requires (r == "" || r[0] != mark) && (q == "" || q[0] != mark)
    requires Doubled(a, mark) + [mark] + r == Doubled(b, mark) + [mark] + q
    ensures a == b
  {
    DoubledStarts(a, mark, r);
    DoubledStarts(b, mark, q);
    if a != "" && b != "" {
      hide Doubled;
      QuoteUnique(a[1..], b[1..], mark, r, q);
      assert a == [a[0]] + a[1..] && b == [b[0]] + b[1..];
    }
  }

  lemma DoubledStarts(a: string, mark: char, r: string)
    requires r == "" || r[0] != mark
    ensures var s := Doubled(a, mark) + [mark] + r;
            && s != "" && (a == "" <==> s[0] == mark && !Starts(s, mark, mark))
            && (a != "" ==> s[0] == a[0] && s[if a[0] == mark then 2 else 1..] == Doubled(a[1..], mark) + [mark] + r)
  {
    if a != "" {
      var head := if a[0] == mark then [mark, mark] else [a[0]];
      var after := Doubled(a[1..], mark) + [mark] + r;
      assert Doubled(a, mark) == head + Doubled(a[1..], mark);
      Regroup(head, Doubled(a[1..], mark), [mark], r);
      hide Doubled;
      assert (head + after)[|head|..] == after;
    }
  }

  lemma {:induction false} LineUnique(a: Segment, b: Segment, r: string, q: string)
    requires a.Line? && b.Line? && Lexes(a, r) && Lexes(b, q) && Text(a) + r == Text(b) + q
    ensures a == b
  {
    var s := Text(a) + r;
    forall i | 0 <= i < |a.line| ensures s[2 + i] == a.line[i] { }
    forall i | 0 <= i < |b.line| ensures s[2 + i] == b.line[i] { }
    assert a.ended ==> s[2 + |a.line|] == '\n';
    assert b.ended ==> s[2 + |b.line|] == '\n';
    assert |a.line| == |b.line|;
  }

  lemma DollarUnique(tag: string, a: string, b: string, r: string, q: string)
    requires FirstClose(a, tag) && FirstClose(b, tag) && a + tag + r == b + tag + q
    ensures a == b
  {
    ShorterClose(tag, a, b, r, q);
    ShorterClose(tag, b, a, q, r);
    assert (a + tag + r)[..|a|] == a && (b + tag + q)[..|b|] == b;
  }

  lemma ShorterClose(tag: string, a: string, b: string, r: string, q: string)
    requires a + tag + r == b + tag + q
    ensures |a| < |b| ==> !FirstClose(b, tag)
  {
    var s := a + tag + r;
    assert s[|a|..][..|tag|] == tag;
    if |a| < |b| {
      assert (b + tag)[|a|..][..|tag|] == s[|a|..][..|tag|];
      assert tag <= (b + tag)[|a|..];
    }
  }

  /** The first characters of a segment tell its kind. */
  lemma KindStarts(g: Segment, rest: string)
    requires Lexes(g, rest)
    ensures var s := Text(g) + rest;
            && s != ""
            && (g.Line? <==> Starts(s, '-', '-')) && (g.Block? <==> Starts(s, '/', '*')) && (g.Quoted? <==> Mark(s[0]))
            && (g.Dollar? <==> TagAt(s) != "") && (g.Dollar? ==> TagAt(s) == Tag(g.name))
            && (g.Code? ==> s[0] == g.c) && (g.Quoted? ==> s[0] == g.mark)
  {
    var s := Text(g) + rest;
    match g
    case Code(c) =>
      assert s == [c] + rest;
      TagOpens(s);
      hide TagAt, OpensDollar;
    case Line(_, _) => assert s[0] == '-' && s[1] == '-';
    case Block(_) => assert s[0] == '/' && s[1] == '*';
    case Quoted(mark, _) => assert s[0] == mark;
    case Dollar(name, body) =>
      DollarText(name, body, rest);
      TagIs(s, name);
      hide TagAt, FirstClose;
  }

  lemma TagUnique(a: string, b: string)
    requires Tag(a) == Tag(b)
    ensures a == b
  {
    assert Tag(a)[1..|a| + 1] == a && Tag(b)[1..|b| + 1] == b;
  }

  lemma SameAfter(a: string, x: string, y: string)
    requires a + x == a + y
    ensures x == y
  {
    assert (a + x)[|a|..] == x && (a + y)[|a|..] == y;
  }

  lemma BlockText(body: Body, rest: string)
    ensures Text(Block(body)) + rest == ['/', '*'] + (BodyText(body) + rest)
  {
    hide BodyText;
  }

  lemma BlockUnique(a: Body, b: Body, r: string, q: string)
    requires BodyOk(a) && BodyOk(b) && Text(Block(a)) + r == Text(Block(b)) + q
    ensures a == b
  {
    BlockText(a, r);
    BlockText(b, q);
    hide *;
    SameAfter(['/', '*'], BodyText(a) + r, BodyText(b) + q);
    BodyUnique(a, b, r, q);
  }

  lemma QuotedText(mark: char, contents: string, rest: string)
    ensures Text(Quoted(mark, contents)) + rest == [mark] + (Doubled(contents, mark) + [mark] + rest)
  {
    hide Doubled;
    Regroup([mark], Doubled(contents, mark), [mark], rest);
  }

  lemma QuotedUnique(mark: char, a: string, b: string, r: string, q: string)
    requires (r == "" || r[0] != mark) && (q == "" || q[0] != mark)
    requires Text(Quoted(mark, a)) + r == Text(Quoted(mark, b)) + q
    ensures a == b
  {
    QuotedText(mark, a, r);
    QuotedText(mark, b, q);
    hide *;
    SameAfter([mark], Doubled(a, mark) + [mark] + r, Doubled(b, mark) + [mark] + q);
    QuoteUnique(a, b, mark, r, q);
  }

  lemma DollarQuoteUnique(name: string, a: string, b: string, r: string, q: string)
    requires FirstClose(a, Tag(name)) && FirstClose(b, Tag(name))
    requires Text(Dollar(name, a)) + r == Text(Dollar(name, b)) + q
    ensures a == b
  {
    hide *;
    DollarText(name, a, r);
    DollarText(name, b, q);
    SameAfter(Tag(name), a + Tag(name) + r, b + Tag(name) + q);
    DollarUnique(Tag(name), a, b, r, q);
  }

  lemma Lexed(g: Segment, rest: string)
    requires Lexes(g, rest)
    ensures g.Block? ==> BodyOk(g.body)
    ensures g.Quoted? ==> rest == "" || rest[0] != g.mark
    ensures g.Dollar? ==> FirstClose(g.dollarBody, Tag(g.name))
    ensures g.Code? ==> Text(g) == [g.c]
  { }

  lemma SegmentUnique(a: Segment, b: Segment, r: string, q: string)
    requires Lexes(a, r) && Lexes(b, q) && Text(a) + r == Text(b) + q
    ensures a == b && r == q
  {
    hide *;
    KindStarts(a, r);
    KindStarts(b, q);
    Lexed(a, r);
    Lexed(b, q);
    match a {
      case Code(c) => { }
      case Line(_, _) => LineUnique(a, b, r, q);
      case Block(body) => BlockUnique(body, b.body, r, q);
      case Quoted(mark, contents) => QuotedUnique(mark, contents, b.contents, r, q);
      case Dollar(name, body) =>
        TagUnique(name, b.name);
        DollarQuoteUnique(name, body, b.dollarBody, r, q);
    }
    var k := |Text(a)|;
    assert (Text(a) + r)[k..] == r && (Text(b) + q)[k..] == q;
  }

  /** A query is cut into segments in at most one way: what is top-level code does not depend on a choice. */
  lemma {:induction false} SegmentationUnique(query: string, a: seq<Segment>, b: seq<Segment>)
    requires Segmented(query, a) && Segmented(query, b)
    ensures a == b
    decreases |a|
  {
    hide Text, Lexes;
    if a != [] { TextNotEmpty(a[0]); }
    if b != [] { TextNotEmpty(b[0]); }
    if a != [] && b != [] {
      var r, q := query[|Text(a[0])|..], query[|Text(b[0])|..];
      assert query == Text(a[0]) + r && query == Text(b[0]) + q;
      SegmentUnique(a[0], b[0], r, q);
      SegmentationUnique(r, a[1..], b[1..]);
      assert a == [a[0]] + a[1..] && b == [b[0]] + b[1..];
    }
  }

  // ----- the scanner

  /** The inner loop: past the word characters. */
  method WordEnd(query: string, start: nat) returns (end: nat)
    requires start <= |query|
    ensures start <= end <= |query| && end - start == WordRun(query[start..])
  {
    end := start;
    while end < |query| && Word(query[end])
      invariant start <= end <= |query|
      invariant WordRun(query[start..]) == end - start + WordRun(query[end..])
    {
      assert query[end..][1..] == query[end + 1..];
      end := end + 1;
    }
  }

  method DollarTag(query: string, i: nat) returns (tag: string)
    requires i < |query|
    ensures tag == TagAt(query[i..]) && (tag == "" || (|tag| >= 2 && tag <= query[i..]))
  {
    tag := "";
    if query[i] == '$' {
      var end := WordEnd(query, i + 1);
      ghost var s := query[i..];
      assert s[1..] == query[i + 1..];
      if end < |query| && query[end] == '$' {
        assert query[i..end + 1] == s[..end + 1 - i];
        tag := query[i..end + 1];
      }
    }
  }

  lemma Slice(query: string, i: nat, n: nat)
    requires i + n <= |query|
    ensures query[i..][n..] == query[i + n..]
  { }

  /** What the loop keeps of its state. */
  predicate Live(state: State) {
    match state
    case InBlock(depth) => depth > 0
    case InDollar(tag) => |tag| > 0
    case InQuote(mark) => Mark(mark)
    case _ => true
  }

  /** One turn of the loop on top-level code; None refuses the query. */
  method TopTurn(query: string, i: nat, semicolon: bool) returns (turn: Option<(State, bool, nat)>)
    requires i < |query|
    ensures turn.None? ==> !Scan(Top, semicolon, query[i..])
    ensures turn.Some? ==> var (state, seen, next) := turn.value;
              i < next <= |query| && Live(state) && Scan(state, seen, query[next..]) == Scan(Top, semicolon, query[i..])
  {
    hide TagAt;
    Slice(query, i, 1);
    var c := query[i];
    var d := if i + 1 < |query| then query[i + 1] else '\0';
    if semicolon && !Blank(c) && !(c == '-' && d == '-') && !(c == '/' && d == '*') { return None; }
    if c == '-' && d == '-' {
      Slice(query, i, 2);
      return Some((InLine, semicolon, i + 2));
    }
    if c == '/' && d == '*' {
      Slice(query, i, 2);
      return Some((InBlock(1), semicolon, i + 2));
    }
    if Mark(c) { return Some((InQuote(c), semicolon, i + 1)); }
    var tag := DollarTag(query, i);
    if tag != "" {
      Slice(query, i, |tag|);
      return Some((InDollar(tag), semicolon, i + |tag|));
    }
    if c == ';' {
      if semicolon { return None; }
      return Some((Top, true, i + 1));
    }
    return Some((Top, semicolon, i + 1));
  }

  lemma InLineTurn(semicolon: bool, s: string)
    requires s != ""
    ensures Scan(InLine, semicolon, s) == Scan(if s[0] == '\n' then Top else InLine, semicolon, s[1..])
  { }

  lemma InBlockTurn(depth: nat, semicolon: bool, s: string)
    requires s != "" && depth > 0
    ensures Scan(InBlock(depth), semicolon, s)
         == if Starts(s, '/', '*') then Scan(InBlock(depth + 1), semicolon, s[2..])
            else if Starts(s, '*', '/') then Scan(if depth == 1 then Top else InBlock(depth - 1), semicolon, s[2..])
            else Scan(InBlock(depth), semicolon, s[1..])
  { }

  lemma InDollarTurn(tag: string, semicolon: bool, s: string)
    requires s != "" && |tag| > 0
    ensures Scan(InDollar(tag), semicolon, s)
         == if tag <= s then Scan(Top, semicolon, s[|tag|..]) else Scan(InDollar(tag), semicolon, s[1..])
  { }

  lemma InQuoteTurn(mark: char, semicolon: bool, s: string)
    requires s != ""
    ensures Scan(InQuote(mark), semicolon, s)
         == if Starts(s, mark, mark) then Scan(InQuote(mark), semicolon, s[2..])
            else Scan(if s[0] == mark then Top else InQuote(mark), semicolon, s[1..])
  { }

  /** One turn inside a comment or a quotation. */
  method InsideTurn(query: string, i: nat, state: State, semicolon: bool) returns (after: State, next: nat)
    requires i < |query| && Live(state) && !state.Top?
    ensures i < next <= |query| && Live(after)
    ensures Scan(after, semicolon, query[next..]) == Scan(state, semicolon, query[i..])
  {
    hide Scan;
    Slice(query, i, 1);
    if i + 2 <= |query| { Slice(query, i, 2); }
    var c := query[i];
    var d := if i + 1 < |query| then query[i + 1] else '\0';
    after, next := state, i + 1;
    match state {
      case InLine =>
        InLineTurn(semicolon, query[i..]);
        if c == '\n' { after := Top; }
      case InBlock(depth) =>
        InBlockTurn(depth, semicolon, query[i..]);
        if c == '/' && d == '*' {
          after, next := InBlock(depth + 1), i + 2;
        } else if c == '*' && d == '/' {
          after, next := if depth == 1 then Top else InBlock(depth - 1), i + 2;
        }
      case InDollar(tag) =>
        InDollarTurn(tag, semicolon, query[i..]);
        if tag <= query[i..] {
          Slice(query, i, |tag|);
          after, next := Top, i + |tag|;
        }
      case InQuote(mark) =>
        InQuoteTurn(mark, semicolon, query[i..]);
        if c == mark {
          if d == mark {
            next := i + 2;
          } else {
            after := Top;
          }
        }
    }
  }

  /** singleStatement. */
  method SingleStatement(query: string) returns (ok: bool)
    ensures ok <==> Accepted(query)
  {
    ScanIsAccepted(query);
    var state := Top;
    var semicolon := false;
    var i := 0;
    assert query[0..] == query;
    assert Scan(state, semicolon, query[i..]) == Scan(Top, false, query);
    while i < |query|
      invariant 0 <= i <= |query| && Live(state)
      invariant Scan(state, semicolon, query[i..]) == Scan(Top, false, query)
      decreases |query| - i
    {
      hide Scan, Live;
      if state.Top? {
        var turn := TopTurn(query, i, semicolon);
        if turn.None? { return false; }
        state, semicolon, i := turn.value.0, turn.value.1, turn.value.2;
      } else {
        state, i := InsideTurn(query, i, state, semicolon);
      }
    }
    assert query[i..] == "";
    return state.Top? || state.InLine?;
  }
}
