/** Compiling a union of globs to an epsilon-NFA, and running it on sets of states. */
module GlobNfa {
  import opened Common
  import opened Glob

  const STATE_BUDGET := 16384

  /** Every pattern occupies a block of `chars` that ends with NUL; a state is an index into it. */
  predicate WellFormed(chars: seq<int>) { chars == [] || chars[|chars| - 1] == NUL }

  predicate States(chars: seq<int>, s: set<int>) { forall p :: p in s ==> 0 <= p < |chars| }

  ghost predicate Scalars(chars: seq<int>) { forall i :: 0 <= i < |chars| ==> IsScalar(chars[i]) }

  /** What state p still has to read: its block from p up to the next NUL. */
  ghost function Residual(chars: seq<int>, p: nat): seq<int>
    requires p < |chars|
    decreases |chars| - p
  {
    if chars[p] == NUL || p + 1 == |chars| then [] else [chars[p]] + Residual(chars, p + 1)
  }

  /** The names accepted from a set of states. */
  ghost predicate Lang(chars: seq<int>, s: set<int>, name: seq<int>)
    requires States(chars, s)
  {
    exists p :: p in s && Match(Residual(chars, p), name)
  }

  /** Follow the empty moves out of p: a state in front of `*` may skip it. */
  ghost function Reach(chars: seq<int>, p: nat): set<int>
    requires WellFormed(chars) && p < |chars|
    decreases |chars| - p
  {
    {p} + if chars[p] == STAR then Reach(chars, p + 1) else {}
  }

  ghost function ClosureSet(chars: seq<int>, s: set<int>): set<int>
    requires WellFormed(chars) && States(chars, s)
  {
    set p, q | p in s && q in Reach(chars, p) :: q
  }

  ghost predicate Closed(chars: seq<int>, s: set<int>) {
    forall p :: p in s && 0 <= p < |chars| && chars[p] == STAR ==> p + 1 in s
  }

  /** Where one state goes on symbol c, before following empty moves. */
  function Moves(chars: seq<int>, p: nat, c: int): set<int>
    requires p < |chars|
  {
    if chars[p] == STAR then {p}
    else if chars[p] == QUESTION then {p + 1}
    else if chars[p] == c && c != NUL then {p + 1}
    else {}
  }

  ghost function Move(chars: seq<int>, s: set<int>, c: int): set<int>
    requires States(chars, s)
  {
    set p, q | p in s && q in Moves(chars, p, c) :: q
  }

  ghost function StepSet(chars: seq<int>, s: set<int>, c: int): (r: set<int>)
    requires WellFormed(chars) && States(chars, s)
    ensures States(chars, r) && Closed(chars, r)
  {
    MoveStates(chars, s, c);
    ClosureClosed(chars, Move(chars, s, c));
    ClosureSet(chars, Move(chars, s, c))
  }

  ghost function Run(chars: seq<int>, s: set<int>, name: seq<int>): (r: set<int>)
    requires WellFormed(chars) && States(chars, s)
    ensures States(chars, r) && (Closed(chars, s) ==> Closed(chars, r))
    decreases |name|
  {
    if name == [] then s
    else StepSet(chars, Run(chars, s, name[..|name| - 1]), name[|name| - 1])
  }

  ghost predicate Accepting(chars: seq<int>, s: set<int>) {
    exists p :: p in s && 0 <= p < |chars| && chars[p] == NUL
  }

  // ----- facts about single states

  lemma {:induction false} ReachFacts(chars: seq<int>, p: nat)
    requires WellFormed(chars) && p < |chars|
    ensures States(chars, Reach(chars, p)) && Closed(chars, Reach(chars, p))
    ensures forall name, q :: q in Reach(chars, p) && Match(Residual(chars, q), name) ==> Match(Residual(chars, p), name)
    decreases |chars| - p
  {
    if chars[p] == STAR {
      ReachFacts(chars, p + 1);
      assert Residual(chars, p)[1..] == Residual(chars, p + 1);
    }
  }

  lemma MoveStates(chars: seq<int>, s: set<int>, c: int)
    requires WellFormed(chars) && States(chars, s)
    ensures States(chars, Move(chars, s, c))
  {
    forall q | q in Move(chars, s, c) ensures 0 <= q < |chars| {
      var p :| p in s && q in Moves(chars, p, c);
    }
  }

  lemma ClosureClosed(chars: seq<int>, s: set<int>)
    requires WellFormed(chars) && States(chars, s)
    ensures States(chars, ClosureSet(chars, s)) && Closed(chars, ClosureSet(chars, s)) && s <= ClosureSet(chars, s)
  {
    forall p | p in s ensures States(chars, Reach(chars, p)) && Closed(chars, Reach(chars, p)) {
      ReachFacts(chars, p);
    }
    forall p | p in s ensures p in ClosureSet(chars, s) { assert p in Reach(chars, p); }
    forall q | q in ClosureSet(chars, s) && 0 <= q < |chars| && chars[q] == STAR
      ensures q + 1 in ClosureSet(chars, s)
    {
      var p :| p in s && q in Reach(chars, p);
      assert q + 1 in Reach(chars, p);
    }
  }

  /** Following empty moves does not change what is accepted. */
  lemma ClosureLang(chars: seq<int>, s: set<int>, name: seq<int>)
    requires WellFormed(chars) && States(chars, s)
    ensures States(chars, ClosureSet(chars, s))
    ensures Lang(chars, ClosureSet(chars, s), name) <==> Lang(chars, s, name)
  {
    ClosureClosed(chars, s);
    if Lang(chars, ClosureSet(chars, s), name) {
      var q :| q in ClosureSet(chars, s) && Match(Residual(chars, q), name);
      var p :| p in s && q in Reach(chars, p);
      ReachFacts(chars, p);
    }
  }

  lemma ResidualHead(chars: seq<int>, p: nat)
    requires WellFormed(chars) && p < |chars|
    ensures chars[p] == NUL ==> Residual(chars, p) == []
    ensures chars[p] != NUL ==> p + 1 < |chars| && Residual(chars, p) != [] && Residual(chars, p)[0] == chars[p]
                                && Residual(chars, p)[1..] == Residual(chars, p + 1)
  { }

  /** If p accepts c followed by rest, some closed-set member moves on c to a state accepting rest. */
  lemma {:induction false} MoveComplete(chars: seq<int>, s: set<int>, p: nat, c: int, rest: seq<int>) returns (q: int)
    requires WellFormed(chars) && States(chars, s) && Closed(chars, s) && p in s && c != NUL
    requires Match(Residual(chars, p), [c] + rest)
    ensures q in Move(chars, s, c) && 0 <= q < |chars| && Match(Residual(chars, q), rest)
    decreases |chars| - p
  {
    ResidualHead(chars, p);
    assert ([c] + rest)[1..] == rest;
    MoveStates(chars, s, c);
    if chars[p] == STAR {
      if Match(Residual(chars, p), rest) {
        q := p;
        assert q in Moves(chars, p, c);
      } else {
        q := MoveComplete(chars, s, p + 1, c, rest);
      }
    } else {
      q := p + 1;
      assert q in Moves(chars, p, c);
    }
  }

  lemma MoveSound(chars: seq<int>, p: nat, c: int, q: int, rest: seq<int>)
    requires WellFormed(chars) && p < |chars| && q in Moves(chars, p, c) && 0 <= q < |chars|
    requires Match(Residual(chars, q), rest)
    ensures Match(Residual(chars, p), [c] + rest)
  {
    ResidualHead(chars, p);
    assert ([c] + rest)[1..] == rest;
  }

  // ----- the simulation theorem

  /** One step of the subset simulation consumes exactly one symbol of the language. */
  lemma StepLang(chars: seq<int>, s: set<int>, c: int, rest: seq<int>)
    requires WellFormed(chars) && States(chars, s) && Closed(chars, s) && c != NUL
    ensures Lang(chars, StepSet(chars, s, c), rest) <==> Lang(chars, s, [c] + rest)
  {
    MoveStates(chars, s, c);
    ClosureLang(chars, Move(chars, s, c), rest);
    if Lang(chars, s, [c] + rest) {
      var p :| p in s && Match(Residual(chars, p), [c] + rest);
      var q := MoveComplete(chars, s, p, c, rest);
    }
    if Lang(chars, Move(chars, s, c), rest) {
      var q :| q in Move(chars, s, c) && Match(Residual(chars, q), rest);
      var p :| p in s && q in Moves(chars, p, c);
      MoveSound(chars, p, c, q, rest);
    }
  }

  lemma {:induction false} RunLang(chars: seq<int>, s: set<int>, name: seq<int>, rest: seq<int>)
    requires WellFormed(chars) && States(chars, s) && Closed(chars, s) && NUL !in name
    ensures Lang(chars, Run(chars, s, name), rest) <==> Lang(chars, s, name + rest)
    decreases |name|
  {
    if name == [] {
      assert name + rest == rest;
    } else {
      var m := |name| - 1;
      StepLang(chars, Run(chars, s, name[..m]), name[m], rest);
      RunLang(chars, s, name[..m], [name[m]] + rest);
      assert name[..m] + ([name[m]] + rest) == name + rest;
    }
  }

  /** A closed set accepts the empty name exactly when it contains an end state. */
  lemma {:induction false} AcceptingState(chars: seq<int>, s: set<int>, p: nat)
    requires WellFormed(chars) && States(chars, s) && Closed(chars, s) && p in s
    requires Match(Residual(chars, p), [])
    ensures Accepting(chars, s)
    decreases |chars| - p
  {
    ResidualHead(chars, p);
    if chars[p] != NUL { AcceptingState(chars, s, p + 1); }
  }

  /** Main simulation result: the subset run accepts exactly the language of its start set. */
  lemma RunExact(chars: seq<int>, s: set<int>, name: seq<int>)
    requires WellFormed(chars) && States(chars, s) && Closed(chars, s) && NUL !in name
    ensures Accepting(chars, Run(chars, s, name)) <==> Lang(chars, s, name)
  {
    var r := Run(chars, s, name);
    RunLang(chars, s, name, []);
    assert name + [] == name;
    if Accepting(chars, r) {
      var p :| p in r && 0 <= p < |chars| && chars[p] == NUL;
      ResidualHead(chars, p);
      assert Match(Residual(chars, p), []);
    }
    if Lang(chars, r, []) {
      var p :| p in r && Match(Residual(chars, p), []);
      AcceptingState(chars, r, p);
    }
  }

  // ----- the alphabet partition

  ghost predicate IsLiteral(chars: seq<int>, c: int) { c in chars && c != NUL && c != STAR && c != QUESTION }

  /** The symbol that stands for a rune: itself when some pattern spells it, else "other" (-1). */
  ghost function Symbol(literals: set<int>, c: int): int { if c in literals then c else -1 }

  ghost function Symbols(literals: set<int>, name: seq<int>): seq<int> {
    seq(|name|, i requires 0 <= i < |name| => Symbol(literals, name[i]))
  }

  /** Runes outside the literals are indistinguishable to the automaton. */
  lemma {:induction false} PartitionComplete(chars: seq<int>, s: set<int>, literals: set<int>, name: seq<int>)
    requires WellFormed(chars) && States(chars, s) && -1 !in chars
    requires forall c :: IsLiteral(chars, c) ==> c in literals
    requires NUL !in literals
    ensures Run(chars, s, name) == Run(chars, s, Symbols(literals, name))
    decreases |name|
  {
    var name' := Symbols(literals, name);
    if name != [] {
      var m := |name| - 1;
      PartitionComplete(chars, s, literals, name[..m]);
      assert name'[..m] == Symbols(literals, name[..m]);
      var t := Run(chars, s, name[..m]);
      var c, c' := name[m], name'[m];
      forall p | p in t ensures Moves(chars, p, c) == Moves(chars, p, c') {
        assert chars[p] in chars;
        assert IsLiteral(chars, chars[p]) ==> chars[p] in literals;
      }
      assert Move(chars, t, c) == Move(chars, t, c');
    }
  }

  // ----- compilation

  lemma {:induction false} ResidualAppend(chars: seq<int>, more: seq<int>, p: nat)
    requires WellFormed(chars) && p < |chars|
    ensures Residual(chars + more, p) == Residual(chars, p)
    decreases |chars| - p
  {
    if chars[p] != NUL { ResidualAppend(chars, more, p + 1); }
  }

  lemma {:induction false} ResidualBlock(before: seq<int>, pattern: seq<int>, k: nat)
    requires NUL !in pattern && k <= |pattern|
    ensures Residual(before + pattern + [NUL], |before| + k) == pattern[k..]
    decreases |pattern| - k
  {
    if k < |pattern| {
      ResidualBlock(before, pattern, k + 1);
      assert pattern[k] in pattern;
      assert pattern[k..] == [pattern[k]] + pattern[k + 1..];
    }
  }

  datatype Nfa = Nfa(chars: seq<int>, ends: set<int>, start: seq<int>) {

    ghost predicate Valid() {
      && WellFormed(chars) && Scalars(chars) && |chars| <= STATE_BUDGET
      && ends == (set p | 0 <= p < |chars| && chars[p] == NUL)
      && StateList(start)
    }

    /** The form in which every state set is kept: increasing, in range, closed. */
    ghost predicate StateList(s: seq<int>) {
      StrictlyIncreasing(s) && States(chars, Elements(s)) && Closed(chars, Elements(s))
    }

    method Closure(input: seq<int>) returns (out: seq<int>)
      requires WellFormed(chars) && States(chars, Elements(input))
      ensures Elements(out) == ClosureSet(chars, Elements(input))
      ensures StateList(out)
    {
      var seen: set<int> := {};
      for i := 0 to |input|
        invariant States(chars, Elements(input[..i])) && seen == ClosureSet(chars, Elements(input[..i]))
      {
        assert input[i] in Elements(input) && input[..i + 1] == input[..i] + [input[i]];
        ClosureAdd(chars, Elements(input[..i]), input[i]);
        assert Elements(input[..i + 1]) == Elements(input[..i]) + {input[i]};
        ClosureClosed(chars, Elements(input[..i]));
        seen := Chase(seen, input[i]);
      }
      assert input[..|input|] == input;
      ClosureClosed(chars, Elements(input));
      out := SortedStates(seen, |chars|);
    }

    /** The inner loop of the closure: skip stars from p until a state already seen. */
    method Chase(before: set<int>, from: int) returns (seen: set<int>)
      requires WellFormed(chars) && States(chars, before) && Closed(chars, before) && 0 <= from < |chars|
      ensures seen == before + Reach(chars, from)
    {
      seen := before;
      var p := from;
      while true
        invariant 0 <= p < |chars| && States(chars, seen) && before <= seen
        invariant seen + Reach(chars, p) == before + Reach(chars, from)
        invariant forall q :: q in seen && q !in before ==> q < p
        decreases |chars| - p
      {
        if p in seen {
          ReachInClosed(chars, before, p);
          break;
        }
        seen := seen + {p};
        if chars[p] != STAR { break; }
        p := p + 1;
      }
    }

    method Step(state: seq<int>, c: int) returns (out: seq<int>)
      requires WellFormed(chars) && States(chars, Elements(state))
      ensures Elements(out) == StepSet(chars, Elements(state), c)
      ensures StateList(out)
    {
      var next: seq<int> := [];
      for i := 0 to |state|
        invariant States(chars, Elements(state[..i])) && Elements(next) == Move(chars, Elements(state[..i]), c)
      {
        assert state[..i + 1] == state[..i] + [state[i]];
        assert state[i] in Elements(state);
        if chars[state[i]] == STAR {
          next := next + [state[i]];
        } else if chars[state[i]] == QUESTION {
          next := next + [state[i] + 1];
        } else if chars[state[i]] == c && c != NUL {
          next := next + [state[i] + 1];
        }
        MoveUnion(chars, Elements(state[..i]), state[i], c);
        assert Elements(state[..i + 1]) == Elements(state[..i]) + {state[i]};
      }
      assert state[..|state|] == state;
      MoveStates(chars, Elements(state), c);
      out := Closure(next);
    }

    method Accepts(state: seq<int>) returns (yes: bool)
      requires Valid() && States(chars, Elements(state))
      ensures yes <==> Accepting(chars, Elements(state))
    {
      for i := 0 to |state|
        invariant forall k :: 0 <= k < i ==> state[k] !in ends
      {
        if state[i] in ends {
          assert state[i] in Elements(state);
          return true;
        }
      }
      return false;
    }
  }

  lemma ClosureAdd(chars: seq<int>, s: set<int>, p: int)
    requires WellFormed(chars) && States(chars, s) && 0 <= p < |chars|
    ensures ClosureSet(chars, s + {p}) == ClosureSet(chars, s) + Reach(chars, p)
  {
    forall q | q in ClosureSet(chars, s) + Reach(chars, p) ensures q in ClosureSet(chars, s + {p}) {
      if q in ClosureSet(chars, s) {
        var p' :| p' in s && q in Reach(chars, p');
        assert p' in s + {p};
      } else {
        assert p in s + {p};
      }
    }
  }

  lemma MoveUnion(chars: seq<int>, s: set<int>, p: int, c: int)
    requires States(chars, s) && 0 <= p < |chars|
    ensures Move(chars, s + {p}, c) == Move(chars, s, c) + Moves(chars, p, c)
  { }

  lemma {:induction false} ReachInClosed(chars: seq<int>, s: set<int>, p: nat)
    requires WellFormed(chars) && States(chars, s) && Closed(chars, s) && p in s
    ensures Reach(chars, p) <= s
    decreases |chars| - p
  {
    if chars[p] == STAR { ReachInClosed(chars, s, p + 1); }
  }

  /** Collecting the keys of a set of states below `bound` and sorting them. */
  method SortedStates(seen: set<int>, bound: nat) returns (out: seq<int>)
    requires forall p :: p in seen ==> 0 <= p < bound
    ensures StrictlyIncreasing(out) && Elements(out) == seen
  {
    out := [];
    for p := 0 to bound
      invariant StrictlyIncreasing(out)
      invariant forall q :: q in out <==> q in seen && q < p
    {
      if p in seen {
        assert forall i :: 0 <= i < |out| ==> out[i] in out;
        out := out + [p];
      }
    }
  }

  /** The patterns one after the other, each closed by NUL. */
  function Laid(patterns: seq<Text>): seq<int> {
    if patterns == [] then [] else Laid(patterns[..|patterns| - 1]) + patterns[|patterns| - 1] + [NUL]
  }

  /** Where the block of each pattern starts. */
  function Starts(patterns: seq<Text>): seq<int> {
    if patterns == [] then [] else Starts(patterns[..|patterns| - 1]) + [|Laid(patterns[..|patterns| - 1])|]
  }

  /** The automaton of a list of patterns; there is only one. */
  ghost predicate IsAutomaton(n: Nfa, patterns: seq<Text>) {
    && n.Valid() && n.chars == Laid(patterns)
    && States(n.chars, Elements(Starts(patterns)))
    && Elements(n.start) == ClosureSet(n.chars, Elements(Starts(patterns)))
  }

  lemma {:induction false} SortedUnique(a: seq<int>, b: seq<int>)
    requires StrictlyIncreasing(a) && StrictlyIncreasing(b) && Elements(a) == Elements(b)
    ensures a == b
  {
    if a != [] && b != [] {
      var m, n := |a| - 1, |b| - 1;
      assert a[m] in Elements(b) && b[n] in Elements(a);
      assert a[m] == b[n];
      forall x ensures x in Elements(a[..m]) <==> x in Elements(b[..n]) {
        assert x in Elements(a[..m]) <==> x in Elements(a) && x != a[m];
        assert x in Elements(b[..n]) <==> x in Elements(b) && x != b[n];
      }
      SortedUnique(a[..m], b[..n]);
    } else {
      HasElement(a);
      HasElement(b);
    }
  }

  lemma HasElement(s: seq<int>)
    ensures s == [] <==> Elements(s) == {}
  {
    if s != [] { assert s[0] in Elements(s); }
  }

  lemma AutomatonUnique(m: Nfa, n: Nfa, patterns: seq<Text>)
    requires IsAutomaton(m, patterns) && IsAutomaton(n, patterns)
    ensures m == n
  {
    SortedUnique(m.start, n.start);
  }

  /** The first i patterns have been laid out, each from its start position. */
  ghost predicate Compiled(patterns: seq<Text>, i: nat, chars: seq<int>, ends: set<int>, start: seq<int>)
    requires i <= |patterns|
  {
    && |start| == i && chars == Laid(patterns[..i]) && start == Starts(patterns[..i])
    && WellFormed(chars) && Scalars(chars)
    && ends == (set p | 0 <= p < |chars| && chars[p] == NUL)
    && (forall k :: 0 <= k < i ==> ValidPattern(patterns[k]))
    && (forall k :: 0 <= k < i ==> 0 <= start[k] < |chars| && Residual(chars, start[k]) == patterns[k])
  }

  lemma LaidNext(patterns: seq<Text>, i: nat)
    requires i < |patterns|
    ensures Laid(patterns[..i + 1]) == Laid(patterns[..i]) + patterns[i] + [NUL]
    ensures Starts(patterns[..i + 1]) == Starts(patterns[..i]) + [|Laid(patterns[..i])|]
  {
    assert patterns[..i + 1][..i] == patterns[..i];
  }

  lemma ValidHasNoNul(pattern: Text)
    requires ValidPattern(pattern)
    ensures NUL !in pattern
  {
    assert IsControl(NUL);
  }

  lemma AddBlock(patterns: seq<Text>, i: nat, chars: seq<int>, ends: set<int>, start: seq<int>)
    requires i < |patterns| && Compiled(patterns, i, chars, ends, start) && ValidPattern(patterns[i])
    ensures Compiled(patterns, i + 1, chars + patterns[i] + [NUL], ends + {|chars + patterns[i]|}, start + [|chars|])
  {
    hide Laid, Starts, ValidPattern, ByteLength;
    var pattern := patterns[i];
    var chars' := chars + pattern + [NUL];
    ValidHasNoNul(pattern);
    LaidNext(patterns, i);
    ResidualBlock(chars, pattern, 0);
    forall k | 0 <= k < i ensures Residual(chars', start[k]) == patterns[k] {
      assert chars' == chars + (pattern + [NUL]);
      ResidualAppend(chars, pattern + [NUL], start[k]);
    }
    forall p ensures p in ends + {|chars + pattern|} <==> 0 <= p < |chars'| && chars'[p] == NUL {
      if |chars| <= p < |chars| + |pattern| { assert chars'[p] == pattern[p - |chars|]; }
    }
  }

  lemma CompiledLang(patterns: seq<Text>, chars: seq<int>, ends: set<int>, start: seq<int>, name: seq<int>)
    requires Compiled(patterns, |patterns|, chars, ends, start)
    ensures States(chars, Elements(start))
    ensures Lang(chars, Elements(start), name) <==> MatchAny(patterns, name)
  {
    if MatchAny(patterns, name) {
      var k :| 0 <= k < |patterns| && Match(patterns[k], name);
      assert start[k] in Elements(start);
    }
  }

  predicate AllValid(patterns: seq<Text>) { forall i :: 0 <= i < |patterns| ==> ValidPattern(patterns[i]) }

  method CompileGlobs(patterns: seq<Text>) returns (r: Result<Nfa>)
    ensures r.Ok? ==> IsAutomaton(r.value, patterns)
    ensures r.Ok? ==> forall name :: Lang(r.value.chars, Elements(r.value.start), name) <==> MatchAny(patterns, name)
    ensures r.Ok? <==> AllValid(patterns) && |Laid(patterns)| <= STATE_BUDGET
    ensures r.Err? ==> r.code == if AllValid(patterns) then "resource_limit" else "authority_unproven"
  {
    var chars: seq<int>, ends: set<int>, start: seq<int> := [], {}, [];
    for i := 0 to |patterns|
      invariant Compiled(patterns, i, chars, ends, start)
    {
      if !ValidPattern(patterns[i]) {
        return Err("authority_unproven");
      }
      AddBlock(patterns, i, chars, ends, start);
      start := start + [|chars|];
      chars := chars + patterns[i];
      ends := ends + {|chars|};
      chars := chars + [NUL];
    }
    assert patterns[..|patterns|] == patterns;
    if |chars| > STATE_BUDGET {
      return Err("resource_limit");
    }
    var closed := Nfa(chars, ends, []).Closure(start);
    forall name ensures Lang(chars, Elements(closed), name) <==> MatchAny(patterns, name) {
      CompiledLang(patterns, chars, ends, start, name);
      ClosureLang(chars, Elements(start), name);
    }
    return Ok(Nfa(chars, ends, closed));
  }
}
