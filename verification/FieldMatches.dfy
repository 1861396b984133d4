/** The greedy matcher for field selectors, and its client, the search for semantic_text fields. */
module FieldMatches {
  import opened Common
  import opened Glob
  import GlobNfa

  /** The variables of the matching loop: pattern index, name index, last star (-1: none), its name index. */
  datatype Cursor = Cursor(i: nat, j: nat, star: int, matched: nat)

  predicate InRange(p: Text, s: Text, c: Cursor) {
    && c.i <= |p| && c.matched <= c.j <= |s| && -1 <= c.star < c.i
    && (c.star >= 0 ==> p[c.star] == STAR)
  }

  /** What the loop computes from a given state on; the comparison precedes the star test, as in the source. */
  function Greedy(p: Text, s: Text, c: Cursor): bool
    requires InRange(p, s, c)
    decreases |p| - c.star, |s| - c.matched, |s| - c.j
  {
    if c.j == |s| then forall k :: c.i <= k < |p| ==> p[k] == STAR
    else if c.i < |p| && (p[c.i] == QUESTION || p[c.i] == s[c.j]) then Greedy(p, s, c.(i := c.i + 1, j := c.j + 1))
    else if c.i < |p| && p[c.i] == STAR then Greedy(p, s, Cursor(c.i + 1, c.j, c.i, c.j))
    else if c.star >= 0 then Greedy(p, s, Cursor(c.star + 1, c.matched + 1, c.star, c.matched + 1))
    else false
  }

  function GreedyMatch(p: Text, s: Text): bool { Greedy(p, s, Cursor(0, 0, -1, 0)) }

  // ----- names without '*': the greedy matcher is exact

  /** p[a..b] has no star and matches s[c..] position by position. */
  ghost predicate Literal(p: Text, a: nat, b: nat, s: Text, c: nat) {
    a <= b <= |p| && c + (b - a) <= |s|
    && forall k :: a <= k < b ==> p[k] != STAR && (p[k] == QUESTION || p[k] == s[c + (k - a)])
  }

  lemma {:induction false} LiteralMatch(p: Text, a: nat, b: nat, s: Text, c: nat)
    requires Literal(p, a, b, s, c)
    ensures Match(p[a..], s[c..]) <==> Match(p[b..], s[c + (b - a)..])
    decreases b - a
  {
    if a < b {
      LiteralMatch(p, a + 1, b, s, c + 1);
      assert p[a..][1..] == p[a + 1..] && s[c..][1..] == s[c + 1..];
    }
  }

  /** A starless block that matches some suffix of s at all matches it position by position. */
  lemma {:induction false} BlockIsLiteral(p: Text, a: nat, b: nat, s: Text, c: nat)
    requires a <= b <= |p| && c <= |s| && Match(p[a..], s[c..])
    requires forall k :: a <= k < b ==> p[k] != STAR
    ensures Literal(p, a, b, s, c)
    decreases b - a
  {
    if a < b {
      assert p[a..][1..] == p[a + 1..];
      assert s[c..] != [];
      assert s[c..][1..] == s[c + 1..];
      BlockIsLiteral(p, a + 1, b, s, c + 1);
    }
  }

  lemma StarAt(p: Text, i: nat, s: Text, j: nat)
    requires i < |p| && p[i] == STAR && j <= |s|
    ensures Match(p[i..], s[j..]) <==> exists k :: j <= k <= |s| && Match(p[i + 1..], s[k..])
  {
    StarAbsorbs(p[i..], s[j..]);
    assert p[i..][1..] == p[i + 1..];
    forall k | 0 <= k <= |s[j..]| ensures s[j..][k..] == s[j + k..] { }
    if k :| j <= k <= |s| && Match(p[i + 1..], s[k..]) {
      assert s[j..][k - j..] == s[k..];
    }
  }

  /** Meeting a further star: committing to the leftmost place for the block before it loses nothing. */
  lemma NextStar(p: Text, star: nat, i: nat, s: Text, matched: nat, j: nat)
    requires star < i < |p| && p[star] == STAR && p[i] == STAR
    requires Literal(p, star + 1, i, s, matched) && j == matched + (i - star - 1)
    ensures Match(p[star..], s[matched..]) <==> Match(p[i..], s[j..])
  {
    hide Match;
    NextStarForward(p, star, i, s, matched, j);
    StarAt(p, star, s, matched);
    LiteralMatch(p, star + 1, i, s, matched);
  }

  lemma NextStarForward(p: Text, star: nat, i: nat, s: Text, matched: nat, j: nat)
    requires star < i < |p| && p[star] == STAR && p[i] == STAR
    requires Literal(p, star + 1, i, s, matched) && j == matched + (i - star - 1)
    ensures Match(p[star..], s[matched..]) ==> Match(p[i..], s[j..])
  {
    if Match(p[star..], s[matched..]) {
      StarAt(p, star, s, matched);
      var k :| matched <= k <= |s| && Match(p[star + 1..], s[k..]);
      BlockIsLiteral(p, star + 1, i, s, k);
      LiteralMatch(p, star + 1, i, s, k);
      LaterStar(p, i, s, j, k + (i - star - 1));
      hide Match, Literal;
    }
  }

  /** A star that matches from a later place on matches from an earlier one. */
  lemma LaterStar(p: Text, i: nat, s: Text, j: nat, k: nat)
    requires i < |p| && p[i] == STAR && j <= k <= |s| && Match(p[i..], s[k..])
    ensures Match(p[i..], s[j..])
  {
    hide Match;
    StarAt(p, i, s, k);
    StarAt(p, i, s, j);
  }

  /** A dead end: the block after the last star must move one place to the right. */
  lemma Backtrack(p: Text, star: nat, s: Text, matched: nat)
    requires star < |p| && p[star] == STAR && matched < |s| && !Match(p[star + 1..], s[matched..])
    ensures Match(p[star..], s[matched..]) <==> Match(p[star..], s[matched + 1..])
  {
    assert p[star..][1..] == p[star + 1..] && s[matched..][1..] == s[matched + 1..];
  }

  /** What is known at the head of the loop. */
  ghost predicate Committed(p: Text, s: Text, c: Cursor)
    requires InRange(p, s, c)
  {
    if c.star < 0 then c.matched == 0 && c.i == c.j && Literal(p, 0, c.i, s, 0)
    else c.j == c.matched + (c.i - c.star - 1) && Literal(p, c.star + 1, c.i, s, c.matched)
  }

  /** What is left to decide at the head of the loop. */
  ghost predicate Remaining(p: Text, s: Text, c: Cursor)
    requires InRange(p, s, c)
  {
    if c.star < 0 then Match(p, s) else Match(p[c.star..], s[c.matched..])
  }

  lemma {:induction false} OnlyStars(p: Text, i: nat)
    requires i <= |p|
    ensures Match(p[i..], []) <==> forall k :: i <= k < |p| ==> p[k] == STAR
    decreases |p| - i
  {
    if i < |p| {
      OnlyStars(p, i + 1);
      assert p[i..][1..] == p[i + 1..];
    }
  }

  /** A committed block that reaches the end of the name can sit nowhere else. */
  lemma LastBlock(p: Text, star: nat, i: nat, s: Text, matched: nat)
    requires star < i <= |p| && p[star] == STAR
    requires Literal(p, star + 1, i, s, matched) && matched + (i - star - 1) == |s|
    ensures Match(p[star..], s[matched..]) <==> Match(p[i..], [])
  {
    StarAt(p, star, s, matched);
    LiteralMatch(p, star + 1, i, s, matched);
    assert s[|s|..] == [];
    if k :| matched <= k <= |s| && Match(p[star + 1..], s[k..]) {
      BlockIsLiteral(p, star + 1, i, s, k);
      assert k == matched;
    }
  }

  /** At the end of the name only stars may be left over. */
  lemma AtEnd(p: Text, s: Text, c: Cursor)
    requires InRange(p, s, c) && Committed(p, s, c) && c.j == |s|
    ensures Remaining(p, s, c) <==> forall k :: c.i <= k < |p| ==> p[k] == STAR
  {
    OnlyStars(p, c.i);
    if c.star < 0 {
      LiteralMatch(p, 0, c.i, s, 0);
      assert p[0..] == p && s[0..] == s && s[|s|..] == [];
    } else {
      LastBlock(p, c.star, c.i, s, c.matched);
    }
  }

  lemma NoMatchHere(p: Text, i: nat, s: Text, j: nat)
    requires i <= |p| && j < |s| && (i == |p| || (p[i] != QUESTION && p[i] != s[j] && p[i] != STAR))
    ensures !Match(p[i..], s[j..])
  { }

  /** A mismatch without any star to fall back on is final; with one, the block moves on. */
  lemma AtMismatch(p: Text, s: Text, c: Cursor)
    requires InRange(p, s, c) && Committed(p, s, c) && c.j < |s|
    requires c.i == |p| || (p[c.i] != QUESTION && p[c.i] != s[c.j] && p[c.i] != STAR)
    ensures c.star < 0 ==> !Remaining(p, s, c)
    ensures c.star >= 0 ==> Committed(p, s, Cursor(c.star + 1, c.matched + 1, c.star, c.matched + 1))
    ensures c.star >= 0 ==>
              (Remaining(p, s, c) <==> Remaining(p, s, Cursor(c.star + 1, c.matched + 1, c.star, c.matched + 1)))
  {
    hide Match;
    NoMatchHere(p, c.i, s, c.j);
    if c.star < 0 {
      LiteralMatch(p, 0, c.i, s, 0);
      assert p[0..] == p && s[0..] == s;
    } else {
      LiteralMatch(p, c.star + 1, c.i, s, c.matched);
      Backtrack(p, c.star, s, c.matched);
    }
  }

  lemma Consume(p: Text, s: Text, c: Cursor)
    requires InRange(p, s, c) && Committed(p, s, c) && c.j < |s| && s[c.j] != STAR
    requires c.i < |p| && (p[c.i] == QUESTION || p[c.i] == s[c.j])
    ensures InRange(p, s, c.(i := c.i + 1, j := c.j + 1)) && Committed(p, s, c.(i := c.i + 1, j := c.j + 1))
    ensures Remaining(p, s, c) <==> Remaining(p, s, c.(i := c.i + 1, j := c.j + 1))
  { }

  /** Passing a star of the pattern keeps what is left to decide. */
  lemma AtStar(p: Text, s: Text, c: Cursor)
    requires InRange(p, s, c) && Committed(p, s, c) && c.i < |p| && p[c.i] == STAR
    ensures Committed(p, s, Cursor(c.i + 1, c.j, c.i, c.j))
    ensures Remaining(p, s, c) <==> Remaining(p, s, Cursor(c.i + 1, c.j, c.i, c.j))
  {
    if c.star < 0 {
      LiteralMatch(p, 0, c.i, s, 0);
      assert p[0..] == p && s[0..] == s;
    } else {
      NextStar(p, c.star, c.i, s, c.matched, c.j);
    }
  }

  lemma {:induction false} GreedyExact(p: Text, s: Text, c: Cursor)
    requires InRange(p, s, c) && Committed(p, s, c) && STAR !in s
    ensures Greedy(p, s, c) <==> Remaining(p, s, c)
    decreases |p| - c.star, |s| - c.matched, |s| - c.j
  {
    hide Remaining, Committed;
    if c.j == |s| {
      AtEnd(p, s, c);
      return;
    }
    assert s[c.j] in s;
    if c.i < |p| && (p[c.i] == QUESTION || p[c.i] == s[c.j]) {
      Consume(p, s, c);
      GreedyExact(p, s, c.(i := c.i + 1, j := c.j + 1));
    } else if c.i < |p| && p[c.i] == STAR {
      AtStar(p, s, c);
      GreedyExact(p, s, Cursor(c.i + 1, c.j, c.i, c.j));
    } else {
      AtMismatch(p, s, c);
      if c.star >= 0 {
        GreedyExact(p, s, Cursor(c.star + 1, c.matched + 1, c.star, c.matched + 1));
      }
    }
  }

  // ----- any name: what the matcher accepts is a match

  lemma Absorb(p: Text, s: Text, i: nat, j: nat)
    requires i < |p| && j < |s| && (p[i] == QUESTION || p[i] == s[j]) && Match(p[i + 1..], s[j + 1..])
    ensures Match(p[i..], s[j..])
  {
    assert p[i..][1..] == p[i + 1..] && s[j..][1..] == s[j + 1..];
    if p[i] == STAR {
      assert Match(p[i..], s[j + 1..]);
    }
  }

  lemma {:induction false} GreedySound(p: Text, s: Text, c: Cursor)
    requires InRange(p, s, c) && Greedy(p, s, c)
    ensures Match(p[c.i..], s[c.j..]) || (c.star >= 0 && Match(p[c.star..], s[c.matched..]))
    decreases |p| - c.star, |s| - c.matched, |s| - c.j
  {
    hide Match;
    if c.j == |s| {
      OnlyStars(p, c.i);
      assert s[c.j..] == [];
    } else if c.i < |p| && (p[c.i] == QUESTION || p[c.i] == s[c.j]) {
      GreedySound(p, s, c.(i := c.i + 1, j := c.j + 1));
      if Match(p[c.i + 1..], s[c.j + 1..]) { Absorb(p, s, c.i, c.j); }
    } else if c.i < |p| && p[c.i] == STAR {
      GreedySound(p, s, Cursor(c.i + 1, c.j, c.i, c.j));
      StarAt(p, c.i, s, c.j);
    } else {
      GreedySound(p, s, Cursor(c.star + 1, c.matched + 1, c.star, c.matched + 1));
      StarAt(p, c.star, s, c.matched);
      StarAt(p, c.star, s, c.matched + 1);
    }
  }

  /** The matcher never accepts what the pattern does not cover: where it is wrong it misses a match. */
  lemma AcceptedMatches(p: Text, s: Text)
    requires GreedyMatch(p, s)
    ensures Match(p, s)
  {
    GreedySound(p, s, Cursor(0, 0, -1, 0));
    assert p[0..] == p && s[0..] == s;
    hide Match, Greedy;
  }

  // ----- names with '*': the comparison swallows a star of the pattern

  /** |n| question marks. */
  function Questions(n: nat): Text { seq(n, i => QUESTION) }

  /** Any one symbol for each symbol of the name, with one star where the name has its star. */
  function Swallowed(s: Text, k: nat): (p: Text)
    requires k < |s|
  {
    Questions(k) + [STAR] + Questions(|s| - k)
  }

  lemma {:induction false} GreedyOneToOne(p: Text, s: Text, i: nat)
    requires i <= |s| < |p|
    requires forall k :: 0 <= k < |s| ==> p[k] == QUESTION || p[k] == s[k]
    requires p[|s|] != STAR
    ensures !Greedy(p, s, Cursor(i, i, -1, 0))
    decreases |s| - i
  {
    if i < |s| { GreedyOneToOne(p, s, i + 1); }
  }

  lemma {:induction false} QuestionsMatch(n: nat, name: Text)
    requires |name| == n
    ensures Match(Questions(n), name)
  {
    if n > 0 {
      assert Questions(n)[1..] == Questions(n - 1);
      QuestionsMatch(n - 1, name[1..]);
    }
  }

  lemma {:induction false} QuestionsThen(n: nat, rest: Text, name: Text)
    requires n <= |name| && Match(rest, name[n..])
    ensures Match(Questions(n) + rest, name)
  {
    var p := Questions(n) + rest;
    if n == 0 {
      assert p == rest && name[0..] == name;
    } else {
      assert p[1..] == Questions(n - 1) + rest;
      assert name[1..][n - 1..] == name[n..];
      QuestionsThen(n - 1, rest, name[1..]);
    }
  }

  /** For every name with a star there is a pattern that covers it but that the matcher rejects. */
  lemma SwallowedCovers(s: Text, k: nat)
    requires k < |s|
    ensures Match(Swallowed(s, k), s)
  {
    var rest := [STAR] + Questions(|s| - k);
    QuestionsMatch(|s| - k, s[k..]);
    assert rest[1..] == Questions(|s| - k);
    QuestionsThen(k, rest, s);
    assert Swallowed(s, k) == Questions(k) + rest;
  }

  lemma SwallowedShape(s: Text, k: nat)
    requires k < |s|
    ensures var p := Swallowed(s, k); |p| == |s| + 1 && forall i :: 0 <= i <= |s| ==> p[i] == if i == k then STAR else QUESTION
  { }

  lemma StarInNameMisleads(s: Text, k: nat)
    requires k < |s| && s[k] == STAR
    ensures Match(Swallowed(s, k), s) && !GreedyMatch(Swallowed(s, k), s)
  {
    hide Match, Greedy, Swallowed;
    SwallowedCovers(s, k);
    SwallowedShape(s, k);
    GreedyOneToOne(Swallowed(s, k), s, 0);
  }

  /** Exactly the star-free names are matched correctly by every pattern. */
  lemma ExactIffNoStar(s: Text)
    ensures (forall p: Text :: GreedyMatch(p, s) <==> Match(p, s)) <==> STAR !in s
  {
    if STAR in s {
      var k :| 0 <= k < |s| && s[k] == STAR;
      StarInNameMisleads(s, k);
    } else {
      forall p: Text ensures GreedyMatch(p, s) <==> Match(p, s) {
        GreedyExact(p, s, Cursor(0, 0, -1, 0));
      }
    }
  }

  /** The greedy matcher and the automaton built from the same pattern agree on star-free names. */
  lemma AgreesWithAutomaton(p: Text, s: Text, nfa: GlobNfa.Nfa)
    requires nfa.Valid() && STAR !in s && NUL !in s
    requires forall name :: GlobNfa.Lang(nfa.chars, Elements(nfa.start), name) <==> MatchAny([p], name)
    ensures GreedyMatch(p, s) <==> GlobNfa.Accepting(nfa.chars, GlobNfa.Run(nfa.chars, Elements(nfa.start), s))
  {
    ExactIffNoStar(s);
    GlobNfa.RunExact(nfa.chars, Elements(nfa.start), s);
    assert MatchAny([p], s) <==> Match(p, s) by { assert [p][0] == p; }
  }

  // ----- the loop itself

  /** How many turns the search can still take: it moves on in the pattern, or moves the block on in the name. */
  function Potential(p: Text, s: Text, i: int, matched: int): int { (|s| - matched) * (|p| + 1) + |p| - i }

  lemma BlockMoves(p: Text, s: Text, i: int, star: int, matched: int)
    requires -1 <= star && i <= |p|
    ensures Potential(p, s, star + 1, matched + 1) < Potential(p, s, i, matched)
  {
    assert (|s| - matched) * (|p| + 1) == (|s| - (matched + 1)) * (|p| + 1) + |p| + 1;
  }

  lemma StarMoves(p: Text, s: Text, i: int, matched: int, j: int)
    requires matched <= j
    ensures Potential(p, s, i + 1, j) < Potential(p, s, i, matched)
  {
    assert (|s| - matched) * (|p| + 1) == (|s| - j) * (|p| + 1) + (j - matched) * (|p| + 1);
    ProductNatural(j - matched, |p| + 1);
  }

  lemma LiteralMoves(p: Text, s: Text, i: int, matched: int)
    ensures Potential(p, s, i + 1, matched) < Potential(p, s, i, matched)
  { }

  lemma ProductNatural(m: nat, n: nat)
    ensures m * n >= 0
  { }

  lemma TurnsLeft(p: Text, s: Text, i: int, matched: int)
    requires i <= |p| && matched <= |s|
    ensures Potential(p, s, i, matched) >= if matched < |s| then 1 else 0
  {
    if matched < |s| {
      assert (|s| - matched) * (|p| + 1) == (|s| - matched - 1) * (|p| + 1) + (|p| + 1);
      ProductNatural(|s| - matched - 1, |p| + 1);
    }
  }

  lemma AllTurns(p: Text, s: Text)
    ensures Potential(p, s, 0, 0) == |s| * (|p| + 1) + |p|
  { }

  /** The part of a query proof that meters work: `expired` is the request deadline as each step sees it. */
  class QueryProof {
    const maxNodes: nat
    const expired: nat -> bool
    var work: nat

    /** Why the proof was given up: the deadline had passed at the last step, or that step was one too many. */
    ghost predicate Spent(code: string)
      reads this
    {
      || (code == "deadline_exceeded" && expired(work))
      || (code == "resource_limit" && work > maxNodes)
    }

    constructor (maxNodes: nat, expired: nat -> bool)
      ensures work == 0 && this.maxNodes == maxNodes
    {
      this.maxNodes := maxNodes;
      this.expired := expired;
      work := 0;
    }

    method Step() returns (r: Result<()>)
      modifies this
      ensures work == old(work) + 1
      ensures r.Ok? <==> !expired(work) && work <= maxNodes
      ensures r.Err? ==> Spent(r.code)
    {
      work := work + 1;
      if expired(work) { return Err("deadline_exceeded"); }
      if work > maxNodes { return Err("resource_limit"); }
      return Ok(());
    }

    /** Without a budget error the answer is the glob's meaning, for names without '*'. */
    method FieldMatches(p: Text, s: Text) returns (r: Result<bool>)
      modifies this
      ensures r.Ok? ==> r.value == GreedyMatch(p, s)
      ensures r.Ok? && STAR !in s ==> r.value == Match(p, s)
      ensures r == Ok(true) ==> Match(p, s)
      ensures r.Err? ==> Spent(r.code)
      ensures work <= old(work) + |s| * (|p| + 1) + |p|
    {
      hide Potential;
      var i, j, star, matched := 0, 0, -1, 0;
      ghost var answer := GreedyMatch(p, s);
      assert Potential(p, s, 0, 0) == |s| * (|p| + 1) + |p| by { AllTurns(p, s); }
      ExactIffNoStar(s);
      if answer { AcceptedMatches(p, s); }
      while j < |s|
        invariant InRange(p, s, Cursor(i, j, star, matched))
        invariant Greedy(p, s, Cursor(i, j, star, matched)) == answer
        invariant work + Potential(p, s, i, matched) <= old(work) + |s| * (|p| + 1) + |p|
        decreases |p| - star, |s| - matched, |s| - j
      {
        TurnsLeft(p, s, i, matched);
        var step := Step();
        if step.Err? { return Err(step.code); }
        if i < |p| && (p[i] == QUESTION || p[i] == s[j]) {
          LiteralMoves(p, s, i, matched);
          i := i + 1;
          j := j + 1;
        } else if i < |p| && p[i] == STAR {
          StarMoves(p, s, i, matched, j);
          star := i;
          i := i + 1;
          matched := j;
        } else if star >= 0 {
          BlockMoves(p, s, i, star, matched);
          matched := matched + 1;
          j := matched;
          i := star + 1;
        } else {
          return Ok(false);
        }
      }
      TurnsLeft(p, s, i, matched);
      while i < |p| && p[i] == STAR
        invariant i <= |p|
        invariant (forall k :: i <= k < |p| ==> p[k] == STAR) == answer
      {
        i := i + 1;
      }
      assert i < |p| ==> p[i] != STAR;
      return Ok(i == |p|);
    }
  }
}
