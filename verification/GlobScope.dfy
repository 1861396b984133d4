/** The product search that decides inclusion and intersection of glob unions, and index scope. */
module GlobScope {
  import opened Common
  import opened Glob
  import opened GlobNfa

  const TRANSITION_BUDGET := 250000
  const MEMORY_BUDGET := 0x100000
  const QUEUE_BUDGET := 4096

  // ----- the key under which a pair of state lists is remembered

  type Byte = b: int | 0 <= b < 256

  /** binary.LittleEndian.PutUint32. */
  function Uint32(v: int): (r: seq<Byte>)
    requires 0 <= v < 0x1_0000_0000
    ensures |r| == 4
  {
    [v % 256, v / 256 % 256, v / 256 / 256 % 256, v / 256 / 256 / 256]
  }

  const SEPARATOR := 0xFFFF_FFFF

  predicate Encodable(s: seq<int>) { forall i :: 0 <= i < |s| ==> 0 <= s[i] < SEPARATOR }

  function Words(s: seq<int>): (r: seq<Byte>)
    requires forall i :: 0 <= i < |s| ==> 0 <= s[i] <= SEPARATOR
    ensures |r| == 4 * |s|
  {
    if s == [] then [] else Uint32(s[0]) + Words(s[1..])
  }

  function StateKey(a: seq<int>, b: seq<int>): (key: seq<Byte>)
    requires Encodable(a) && Encodable(b)
  {
    Words(a + [SEPARATOR] + b)
  }

  lemma Uint32Injective(v: int, w: int)
    requires 0 <= v < 0x1_0000_0000 && 0 <= w < 0x1_0000_0000 && Uint32(v) == Uint32(w)
    ensures v == w
  {
    assert Uint32(v)[3] == Uint32(w)[3] && Uint32(v)[2] == Uint32(w)[2];
    assert v / 256 / 256 == w / 256 / 256;
    assert Uint32(v)[1] == Uint32(w)[1] && Uint32(v)[0] == Uint32(w)[0];
    assert v / 256 == w / 256;
  }

  lemma {:induction false} WordsInjective(s: seq<int>, t: seq<int>)
    requires forall i :: 0 <= i < |s| ==> 0 <= s[i] <= SEPARATOR
    requires forall i :: 0 <= i < |t| ==> 0 <= t[i] <= SEPARATOR
    requires Words(s) == Words(t)
    ensures s == t
  {
    assert |s| == |t|;
    if s != [] {
      assert Words(s)[..4] == Uint32(s[0]) && Words(t)[..4] == Uint32(t[0]);
      Uint32Injective(s[0], t[0]);
      assert Words(s)[4..] == Words(s[1..]) && Words(t)[4..] == Words(t[1..]);
      WordsInjective(s[1..], t[1..]);
    }
  }

  /** Different pairs of state lists never share a key. */
  lemma StateKeyInjective(a: seq<int>, b: seq<int>, c: seq<int>, d: seq<int>)
    requires Encodable(a) && Encodable(b) && Encodable(c) && Encodable(d)
    requires StateKey(a, b) == StateKey(c, d)
    ensures a == c && b == d
  {
    var s, t := a + [SEPARATOR] + b, c + [SEPARATOR] + d;
    WordsInjective(s, t);
    assert s[|a|] == t[|a|] && s[|c|] == t[|c|];
    assert |a| == |c|;
    assert a == s[..|a|] && c == t[..|c|];
    assert b == s[|a| + 1..] && d == t[|c| + 1..];
  }

  lemma {:induction false} WordsAppend(s: seq<int>, v: int)
    requires forall i :: 0 <= i < |s| ==> 0 <= s[i] <= SEPARATOR
    requires 0 <= v <= SEPARATOR
    ensures Words(s + [v]) == Words(s) + Uint32(v)
  {
    if s == [] {
      assert s + [v] == [v];
    } else {
      WordsAppend(s[1..], v);
      assert (s + [v])[1..] == s[1..] + [v];
    }
  }

  method PutUint32(raw: array<Byte>, i: nat, v: int, ghost done: seq<int>)
    requires i + 4 <= raw.Length && 0 <= v <= SEPARATOR
    requires forall k :: 0 <= k < |done| ==> 0 <= done[k] <= SEPARATOR
    requires raw[..i] == Words(done)
    modifies raw
    ensures raw[..i + 4] == Words(done + [v])
  {
    WordsAppend(done, v);
    var word := Uint32(v);
    raw[i], raw[i + 1], raw[i + 2], raw[i + 3] := word[0], word[1], word[2], word[3];
    assert raw[..i + 4] == raw[..i] + word;
  }

  /** The source's stateKey: both lists and a separator, laid out in one buffer. */
  method EncodeKey(a: seq<int>, b: seq<int>) returns (key: seq<Byte>)
    requires Encodable(a) && Encodable(b)
    ensures key == StateKey(a, b)
  {
    hide Uint32;
    var raw := new Byte[4 * (|a| + |b| + 1)](_ => 0);
    var i := 0;
    for k := 0 to |a|
      invariant i == 4 * k && raw[..i] == Words(a[..k])
    {
      PutUint32(raw, i, a[k], a[..k]);
      assert a[..k + 1] == a[..k] + [a[k]];
      i := i + 4;
    }
    assert a[..|a|] == a;
    PutUint32(raw, i, SEPARATOR, a);
    i := i + 4;
    ghost var front := a + [SEPARATOR];
    assert front + b[..0] == front;
    for k := 0 to |b|
      invariant i == 4 * (|front| + k) && raw[..i] == Words(front + b[..k])
    {
      PutUint32(raw, i, b[k], front + b[..k]);
      assert front + b[..k + 1] == front + b[..k] + [b[k]];
      i := i + 4;
    }
    assert b[..|b|] == b;
    assert raw[..] == raw[..i];
    return raw[..];
  }

  // ----- what the product search looks for

  datatype Pair = Pair(a: seq<int>, b: seq<int>)

  ghost predicate Over(alphabet: set<int>, word: seq<int>) { forall c :: c in word ==> c in alphabet }

  /** A pair of state sets that settles the question by itself. */
  ghost predicate Decisive(a: Nfa, b: Nfa, x: set<int>, y: set<int>, intersection: bool) {
    Accepting(a.chars, x) && (Accepting(b.chars, y) <==> intersection)
  }

  ghost predicate Dead(x: set<int>, y: set<int>, intersection: bool) { x == {} || (intersection && y == {}) }

  ghost predicate ValidPair(a: Nfa, b: Nfa, p: Pair) { a.StateList(p.a) && b.StateList(p.b) }

  ghost predicate ReachedBy(a: Nfa, b: Nfa, p: Pair, word: seq<int>)
    requires a.Valid() && b.Valid()
  {
    && Elements(p.a) == Run(a.chars, Elements(a.start), word)
    && Elements(p.b) == Run(b.chars, Elements(b.start), word)
  }

  /** The successor of p on c was pruned or is in the queue. */
  ghost predicate Expanded(a: Nfa, b: Nfa, queue: seq<Pair>, p: Pair, c: int, intersection: bool)
    requires a.Valid() && b.Valid() && ValidPair(a, b, p)
  {
    var x, y := StepSet(a.chars, Elements(p.a), c), StepSet(b.chars, Elements(p.b), c);
    Dead(x, y, intersection) || exists j :: 0 <= j < |queue| && Elements(queue[j].a) == x && Elements(queue[j].b) == y
  }

  ghost predicate Exhausted(a: Nfa, b: Nfa, alphabet: set<int>, queue: seq<Pair>, head: nat, intersection: bool)
    requires a.Valid() && b.Valid()
  {
    && (forall i :: 0 <= i < |queue| ==> ValidPair(a, b, queue[i]))
    && 0 < |queue| && queue[0] == Pair(a.start, b.start) && head <= |queue|
    && (forall i :: 0 <= i < head ==> !Decisive(a, b, Elements(queue[i].a), Elements(queue[i].b), intersection))
    && (forall i, c :: 0 <= i < head && c in alphabet ==> Expanded(a, b, queue, queue[i], c, intersection))
  }

  /** An exhausted queue covers the run of every word over the alphabet. */
  lemma {:induction false} Coverage(a: Nfa, b: Nfa, alphabet: set<int>, queue: seq<Pair>, word: seq<int>, intersection: bool)
    requires a.Valid() && b.Valid() && Exhausted(a, b, alphabet, queue, |queue|, intersection) && Over(alphabet, word)
    ensures Dead(Run(a.chars, Elements(a.start), word), Run(b.chars, Elements(b.start), word), intersection)
            || exists j :: 0 <= j < |queue| && ReachedBy(a, b, queue[j], word)
    decreases |word|
  {
    if word == [] {
      assert ReachedBy(a, b, queue[0], word);
    } else {
      var u, c := word[..|word| - 1], word[|word| - 1];
      assert c in word;
      Coverage(a, b, alphabet, queue, u, intersection);
      if j :| 0 <= j < |queue| && ReachedBy(a, b, queue[j], u) {
        assert Expanded(a, b, queue, queue[j], c, intersection);
        var x, y := StepSet(a.chars, Elements(queue[j].a), c), StepSet(b.chars, Elements(queue[j].b), c);
        if k :| 0 <= k < |queue| && Elements(queue[k].a) == x && Elements(queue[k].b) == y {
          assert ReachedBy(a, b, queue[k], word);
        }
      }
    }
  }

  ghost predicate WordDecides(a: Nfa, b: Nfa, word: seq<int>, intersection: bool)
    requires a.Valid() && b.Valid()
  {
    Decisive(a, b, Run(a.chars, Elements(a.start), word), Run(b.chars, Elements(b.start), word), intersection)
  }

  lemma ExhaustedMeansNone(a: Nfa, b: Nfa, alphabet: set<int>, queue: seq<Pair>, word: seq<int>, intersection: bool)
    requires a.Valid() && b.Valid() && Exhausted(a, b, alphabet, queue, |queue|, intersection) && Over(alphabet, word)
    ensures !WordDecides(a, b, word, intersection)
  {
    Coverage(a, b, alphabet, queue, word, intersection);
  }

  // ----- how large a search may become

  /** What one remembered pair is charged. */
  function Charge(p: Pair): nat { 16 * (|p.a| + |p.b|) + 4 * (|p.a| + |p.b| + 1) + 128 }

  function Weight(q: seq<Pair>): nat { if q == [] then 0 else Weight(q[..|q| - 1]) + Charge(q[|q| - 1]) }

  ghost predicate Reachable(a: Nfa, b: Nfa, alphabet: set<int>, p: Pair)
    requires a.Valid() && b.Valid()
  {
    exists word :: Over(alphabet, word) && ReachedBy(a, b, p, word)
  }

  ghost predicate Distinct(q: seq<Pair>) { forall i, j :: 0 <= i < j < |q| ==> q[i] != q[j] }

  ghost predicate Alive(a: Nfa, b: Nfa, alphabet: set<int>, p: Pair, intersection: bool)
    requires a.Valid() && b.Valid()
  {
    ValidPair(a, b, p) && Reachable(a, b, alphabet, p) && !Dead(Elements(p.a), Elements(p.b), intersection)
  }

  /** Different pairs of state lists, the start first, that words over the alphabet reach and from which something may follow. */
  ghost predicate Explored(a: Nfa, b: Nfa, alphabet: set<int>, q: seq<Pair>, intersection: bool)
    requires a.Valid() && b.Valid()
  {
    && q != [] && q[0] == Pair(a.start, b.start) && Distinct(q)
    && forall i :: 1 <= i < |q| ==> Alive(a, b, alphabet, q[i], intersection)
  }

  /** More pairs, transitions or memory than one proof may use. */
  predicate OverBudget(q: seq<Pair>, symbols: nat)
    requires q != []
  {
    |q| > QUEUE_BUDGET || |q| * symbols > TRANSITION_BUDGET || Weight(q[1..]) > MEMORY_BUDGET
  }

  ghost predicate TooLarge(a: Nfa, b: Nfa, alphabet: set<int>, intersection: bool)
    requires a.Valid() && b.Valid()
  {
    exists q :: Explored(a, b, alphabet, q, intersection) && OverBudget(q, |alphabet|)
  }

  lemma {:induction false} WeightWithout(w: seq<Pair>, j: nat)
    requires j < |w|
    ensures Weight(w) == Weight(w[..j] + w[j + 1..]) + Charge(w[j])
  {
    var m := |w| - 1;
    var u := w[..j] + w[j + 1..];
    if j == m {
      assert u == w[..m];
    } else {
      WeightWithout(w[..m], j);
      assert u[..m - 1] == w[..m][..j] + w[..m][j + 1..] && u[m - 1] == w[m];
    }
  }

  /** Different members of a list are no more and weigh no more than the list. */
  lemma {:induction false} Within(q: seq<Pair>, w: seq<Pair>)
    requires Distinct(q) && forall i :: 0 <= i < |q| ==> q[i] in w
    ensures |q| <= |w| && Weight(q) <= Weight(w)
  {
    if q != [] {
      var m := |q| - 1;
      assert q[m] in w;
      var j :| 0 <= j < |w| && w[j] == q[m];
      var u := w[..j] + w[j + 1..];
      forall i | 0 <= i < m ensures q[..m][i] in u {
        var k :| 0 <= k < |w| && w[k] == q[i];
        assert w[k] == u[if k < j then k else k - 1];
      }
      Within(q[..m], u);
      WeightWithout(w, j);
    }
  }

  /** What an exhausted queue holds is all there is to explore. */
  lemma ExhaustedHoldsAll(a: Nfa, b: Nfa, alphabet: set<int>, queue: seq<Pair>, p: Pair, intersection: bool)
    requires a.Valid() && b.Valid() && Exhausted(a, b, alphabet, queue, |queue|, intersection)
    requires Alive(a, b, alphabet, p, intersection)
    ensures p in queue
  {
    var word :| Over(alphabet, word) && ReachedBy(a, b, p, word);
    Coverage(a, b, alphabet, queue, word, intersection);
    var j :| 0 <= j < |queue| && ReachedBy(a, b, queue[j], word);
    SortedUnique(p.a, queue[j].a);
    SortedUnique(p.b, queue[j].b);
  }

  lemma ExhaustedIsLargest(a: Nfa, b: Nfa, alphabet: set<int>, queue: seq<Pair>, q: seq<Pair>, intersection: bool)
    requires a.Valid() && b.Valid() && Exhausted(a, b, alphabet, queue, |queue|, intersection)
    requires Explored(a, b, alphabet, q, intersection)
    ensures |q| <= |queue| && Weight(q[1..]) <= Weight(queue[1..])
  {
    hide Exhausted, Alive;
    assert queue != [] && queue[0] == q[0] by { QueueStart(a, b, alphabet, queue, intersection); }
    forall i | 0 <= i < |q[1..]| ensures q[1..][i] in queue[1..] {
      assert q[1..][i] == q[i + 1];
      ExhaustedHoldsAll(a, b, alphabet, queue, q[i + 1], intersection);
      assert queue == [queue[0]] + queue[1..];
    }
    Within(q[1..], queue[1..]);
  }

  lemma QueueStart(a: Nfa, b: Nfa, alphabet: set<int>, queue: seq<Pair>, intersection: bool)
    requires a.Valid() && b.Valid() && Exhausted(a, b, alphabet, queue, |queue|, intersection)
    ensures queue != [] && queue[0] == Pair(a.start, b.start)
  { }

  /** A search that ends with nothing left to look at was within all budgets, and so is every other. */
  lemma ExhaustedFits(a: Nfa, b: Nfa, alphabet: set<int>, queue: seq<Pair>, intersection: bool)
    requires a.Valid() && b.Valid() && Exhausted(a, b, alphabet, queue, |queue|, intersection)
    requires !OverBudget(queue, |alphabet|)
    ensures !TooLarge(a, b, alphabet, intersection)
  {
    hide Exhausted, Explored;
    forall q | Explored(a, b, alphabet, q, intersection) ensures q != [] && !OverBudget(q, |alphabet|) {
      ExhaustedIsLargest(a, b, alphabet, queue, q, intersection);
      ExploredStart(a, b, alphabet, q, intersection);
      TimesMonotone(|q|, |queue|, |alphabet|);
    }
  }

  lemma ExploredStart(a: Nfa, b: Nfa, alphabet: set<int>, q: seq<Pair>, intersection: bool)
    requires a.Valid() && b.Valid() && Explored(a, b, alphabet, q, intersection)
    ensures q != []
  { }

  lemma TimesMonotone(m: nat, n: nat, k: nat)
    requires m <= n
    ensures m * k <= n * k
  { }

  // ----- from words over the alphabet back to names

  ghost function Literals(a: Nfa, b: Nfa): set<int> {
    set c | c in a.chars + b.chars && c != NUL && c != STAR && c != QUESTION
  }

  /** Whether a name separates (or joins) the two languages. */
  ghost predicate NameDecides(left: seq<Text>, right: seq<Text>, name: seq<int>, intersection: bool) {
    MatchAny(left, name) && (MatchAny(right, name) <==> intersection)
  }

  ghost predicate Compiles(n: Nfa, globs: seq<Text>) {
    && n.Valid() && (forall i :: 0 <= i < |globs| ==> ValidPattern(globs[i]))
    && forall name :: Lang(n.chars, Elements(n.start), name) <==> MatchAny(globs, name)
  }

  lemma SymbolsKeepMeaning(a: Nfa, b: Nfa, left: seq<Text>, right: seq<Text>, name: seq<int>, intersection: bool)
    requires Compiles(a, left) && Compiles(b, right) && NUL !in name
    ensures WordDecides(a, b, Symbols(Literals(a, b), name), intersection) <==> NameDecides(left, right, name, intersection)
  {
    PartitionComplete(a.chars, Elements(a.start), Literals(a, b), name);
    PartitionComplete(b.chars, Elements(b.start), Literals(a, b), name);
    RunExact(a.chars, Elements(a.start), name);
    RunExact(b.chars, Elements(b.start), name);
  }

  /** A set of n numbers misses one of 1..n+1. */
  lemma {:induction false} Fresh(s: set<int>, n: nat) returns (f: int)
    requires |s| <= n
    ensures 0 < f <= n + 1 && f !in s
    decreases n
  {
    if n + 1 !in s {
      f := n + 1;
    } else {
      f := Fresh(s - {n + 1}, n - 1);
    }
  }

  lemma {:induction false} ElementsBound(s: seq<int>, t: set<int>)
    requires forall x :: x in t ==> x in s
    ensures |t| <= |s|
    decreases |s|
  {
    if t != {} {
      var x := Witness(t);
      var i :| 0 <= i < |s| && s[i] == x;
      ElementsBound(s[..i] + s[i + 1..], t - {x});
    }
  }

  /** Every word over the alphabet is spelled by a real name: "other" becomes a rune no pattern uses. */
  lemma Spell(a: Nfa, b: Nfa, word: seq<int>) returns (name: Text)
    requires a.Valid() && b.Valid() && Over(Literals(a, b) + {-1}, word)
    ensures IsName(name) && Symbols(Literals(a, b), name) == word
  {
    ElementsBound(a.chars + b.chars, Literals(a, b));
    var f := Fresh(Literals(a, b), 2 * STATE_BUDGET);
    name := [];
    for k := 0 to |word|
      invariant |name| == k && forall i :: 0 <= i < k ==> name[i] == if word[i] == -1 then f else word[i]
      invariant NUL !in name
    {
      assert word[k] in word;
      var r: Rune := if word[k] == -1 then f else word[k];
      name := name + [r];
    }
    forall i | 0 <= i < |word| ensures Symbol(Literals(a, b), name[i]) == word[i] {
      assert word[i] in word;
    }
  }

  // ----- the search itself

  /** What a verdict of globRelation means, over every name there can ever be. */
  ghost predicate Verdict(left: seq<Text>, right: seq<Text>, intersection: bool, value: bool) {
    value <==> if intersection then exists name: Text :: IsName(name) && MatchAny(left, name) && MatchAny(right, name)
               else forall name: Text :: IsName(name) && MatchAny(left, name) ==> MatchAny(right, name)
  }

  lemma FoundVerdict(a: Nfa, b: Nfa, left: seq<Text>, right: seq<Text>, word: seq<int>, intersection: bool)
    requires Compiles(a, left) && Compiles(b, right)
    requires Over(Literals(a, b) + {-1}, word) && WordDecides(a, b, word, intersection)
    ensures Verdict(left, right, intersection, intersection)
  {
    var name := Spell(a, b, word);
    SymbolsKeepMeaning(a, b, left, right, name, intersection);
    assert NameDecides(left, right, name, intersection);
  }

  lemma NoneVerdict(a: Nfa, b: Nfa, left: seq<Text>, right: seq<Text>, queue: seq<Pair>, intersection: bool)
    requires Compiles(a, left) && Compiles(b, right)
    requires Exhausted(a, b, Literals(a, b) + {-1}, queue, |queue|, intersection)
    ensures Verdict(left, right, intersection, !intersection)
  {
    forall name: Text | IsName(name) ensures !NameDecides(left, right, name, intersection) {
      var word := Symbols(Literals(a, b), name);
      assert Over(Literals(a, b) + {-1}, word);
      ExhaustedMeansNone(a, b, Literals(a, b) + {-1}, queue, word, intersection);
      SymbolsKeepMeaning(a, b, left, right, name, intersection);
    }
  }

  lemma ExpandedGrows(a: Nfa, b: Nfa, queue: seq<Pair>, more: seq<Pair>, p: Pair, c: int, intersection: bool)
    requires a.Valid() && b.Valid() && ValidPair(a, b, p) && Expanded(a, b, queue, p, c, intersection)
    ensures Expanded(a, b, queue + more, p, c, intersection)
  {
    var x, y := StepSet(a.chars, Elements(p.a), c), StepSet(b.chars, Elements(p.b), c);
    if !Dead(x, y, intersection) {
      var j :| 0 <= j < |queue| && Elements(queue[j].a) == x && Elements(queue[j].b) == y;
      assert (queue + more)[j] == queue[j];
    }
  }

  lemma StatesEncodable(n: Nfa, s: seq<int>)
    requires n.Valid() && n.StateList(s)
    ensures Encodable(s)
  {
    forall i | 0 <= i < |s| ensures 0 <= s[i] < |n.chars| { assert s[i] in Elements(s); }
  }

  method Alphabet(a: Nfa, b: Nfa) returns (chars: set<int>)
    ensures chars == Literals(a, b) + {-1}
  {
    chars := {-1};
    var all := a.chars + b.chars;
    for i := 0 to |all|
      invariant chars == (set c | c in all[..i] && c != NUL && c != STAR && c != QUESTION) + {-1}
    {
      assert all[..i + 1] == all[..i] + [all[i]];
      if all[i] != NUL && all[i] != STAR && all[i] != QUESTION { chars := chars + {all[i]}; }
    }
    assert all[..|all|] == all;
  }

  /** Every queued pair is reached by a word over the alphabet, and `seen` holds exactly their keys. */
  ghost predicate Tracked(a: Nfa, b: Nfa, alphabet: set<int>, queue: seq<Pair>, words: seq<seq<int>>, seen: set<seq<Byte>>)
    requires a.Valid() && b.Valid()
  {
    && |words| == |queue|
    && (forall i :: 0 <= i < |queue| ==> ValidPair(a, b, queue[i]) && Encodable(queue[i].a) && Encodable(queue[i].b))
    && (forall i :: 0 <= i < |queue| ==> Over(alphabet, words[i]) && ReachedBy(a, b, queue[i], words[i]))
    && (forall k :: k in seen ==> exists i :: 0 <= i < |queue| && k == StateKey(queue[i].a, queue[i].b))
    && (forall i :: 0 <= i < |queue| ==> StateKey(queue[i].a, queue[i].b) in seen)
  }

  /** A newly reached pair may join the queue. */
  lemma Enqueue(a: Nfa, b: Nfa, alphabet: set<int>, queue: seq<Pair>, head: nat, p: Pair, c: int, intersection: bool)
    requires a.Valid() && b.Valid() && Exhausted(a, b, alphabet, queue, head, intersection) && head < |queue| && ValidPair(a, b, p)
    requires Elements(p.a) == StepSet(a.chars, Elements(queue[head].a), c)
    requires Elements(p.b) == StepSet(b.chars, Elements(queue[head].b), c)
    ensures Exhausted(a, b, alphabet, queue + [p], head, intersection)
    ensures Expanded(a, b, queue + [p], queue[head], c, intersection)
  {
    forall i, c | 0 <= i < head && c in alphabet ensures Expanded(a, b, queue + [p], queue[i], c, intersection) {
      ExpandedGrows(a, b, queue, [p], queue[i], c, intersection);
    }
    assert (queue + [p])[|queue|] == p;
  }

  lemma Track(a: Nfa, b: Nfa, alphabet: set<int>, queue: seq<Pair>, words: seq<seq<int>>, seen: set<seq<Byte>>,
              head: nat, p: Pair, c: int)
    requires a.Valid() && b.Valid() && Tracked(a, b, alphabet, queue, words, seen) && head < |queue| && c in alphabet
    requires ValidPair(a, b, p) && Encodable(p.a) && Encodable(p.b)
    requires Elements(p.a) == StepSet(a.chars, Elements(queue[head].a), c)
    requires Elements(p.b) == StepSet(b.chars, Elements(queue[head].b), c)
    ensures Tracked(a, b, alphabet, queue + [p], words + [words[head] + [c]], seen + {StateKey(p.a, p.b)})
  {
    hide StateKey, Encodable, StepSet;
    var word := words[head] + [c];
    assert word[..|word| - 1] == words[head];
    assert ReachedBy(a, b, queue[head], words[head]);
    assert ReachedBy(a, b, p, word);
    forall k | k in seen + {StateKey(p.a, p.b)}
      ensures exists i :: 0 <= i < |queue + [p]| && Encodable((queue + [p])[i].a) && Encodable((queue + [p])[i].b)
                          && k == StateKey((queue + [p])[i].a, (queue + [p])[i].b)
    {
      if k in seen {
        var i :| 0 <= i < |queue| && k == StateKey(queue[i].a, queue[i].b);
        assert (queue + [p])[i] == queue[i];
      } else {
        assert (queue + [p])[|queue|] == p;
      }
    }
  }

  // ----- when there may be an error

  ghost predicate ProductTooLarge(left: seq<Text>, right: seq<Text>, intersection: bool) {
    exists a, b :: IsAutomaton(a, left) && IsAutomaton(b, right) && TooLarge(a, b, Literals(a, b) + {-1}, intersection)
  }

  /** The patterns are acceptable and their product is within all budgets. */
  ghost predicate Provable(left: seq<Text>, right: seq<Text>, intersection: bool) {
    && AllValid(left) && |Laid(left)| <= STATE_BUDGET && AllValid(right) && |Laid(right)| <= STATE_BUDGET
    && !ProductTooLarge(left, right, intersection)
  }

  ghost predicate Expired(expired: nat -> bool) { exists k: nat :: k < QUEUE_BUDGET && expired(k) }

  /** What each error code says of the inputs. */
  ghost predicate Justified(left: seq<Text>, right: seq<Text>, intersection: bool, expired: nat -> bool, code: string) {
    || (code == "authority_unproven" && !(AllValid(left) && AllValid(right)))
    || (code == "resource_limit" && (|Laid(left)| > STATE_BUDGET || |Laid(right)| > STATE_BUDGET
                                     || ProductTooLarge(left, right, intersection)))
    || (code == "deadline_exceeded" && Expired(expired))
  }

  lemma ProductOf(a: Nfa, b: Nfa, left: seq<Text>, right: seq<Text>, intersection: bool)
    requires IsAutomaton(a, left) && IsAutomaton(b, right)
    ensures ProductTooLarge(left, right, intersection) <==> TooLarge(a, b, Literals(a, b) + {-1}, intersection)
  {
    forall a', b' | IsAutomaton(a', left) && IsAutomaton(b', right) ensures a' == a && b' == b {
      AutomatonUnique(a, a', left);
      AutomatonUnique(b, b', right);
    }
  }

  /** Decide inclusion (or intersection) of two glob unions by searching pairs of state sets.
      `expired` is the request deadline as each round of the search sees it. */
  method GlobRelation(left: seq<Text>, right: seq<Text>, intersection: bool, expired: nat -> bool) returns (r: Result<bool>)
    ensures r.Ok? ==> Verdict(left, right, intersection, r.value)
    ensures r.Ok? ==> AllValid(left) && AllValid(right) && (r.value == !intersection ==> Provable(left, right, intersection))
    ensures r.Err? ==> Justified(left, right, intersection, expired, r.code)
  {
    hide Laid, IsAutomaton, TooLarge;
    var first := CompileGlobs(left);
    if first.Err? { return Err(first.code); }
    var second := CompileGlobs(right);
    if second.Err? { return Err(second.code); }
    AutomatonValid(first.value, left);
    AutomatonValid(second.value, right);
    ProductOf(first.value, second.value, left, right, intersection);
    r := Search(first.value, second.value, left, right, intersection, expired);
  }

  lemma AutomatonValid(n: Nfa, patterns: seq<Text>)
    requires IsAutomaton(n, patterns)
    ensures n.Valid()
  { }

  /** The variables of the search. */
  datatype Work = Work(queue: seq<Pair>, seen: set<seq<Byte>>, transitions: int, retained: int)

  /** Where the search stands: pairs before `head` have been expanded, and `words` lead to all that are queued. */
  ghost predicate Searching(a: Nfa, b: Nfa, alphabet: set<int>, work: Work, words: seq<seq<int>>, head: nat, intersection: bool)
    requires a.Valid() && b.Valid()
  {
    && Exhausted(a, b, alphabet, work.queue, head, intersection)
    && Tracked(a, b, alphabet, work.queue, words, work.seen)
    && Explored(a, b, alphabet, work.queue, intersection)
  }

  /** The counters agree with the queue and are within their budgets. */
  ghost predicate Metered(work: Work, head: nat, symbols: nat, done: nat) {
    && work.queue != [] && |work.queue| <= QUEUE_BUDGET
    && work.transitions == head * symbols + done <= TRANSITION_BUDGET
    && work.retained == Weight(work.queue[1..]) <= MEMORY_BUDGET
  }

  lemma SearchStart(a: Nfa, b: Nfa, alphabet: set<int>, intersection: bool)
    requires a.Valid() && b.Valid()
    ensures Encodable(a.start) && Encodable(b.start)
    ensures var work := Work([Pair(a.start, b.start)], {StateKey(a.start, b.start)}, 0, 0);
            Searching(a, b, alphabet, work, [[]], 0, intersection) && Metered(work, 0, |alphabet|, 0)
  {
    StatesEncodable(a, a.start);
    StatesEncodable(b, b.start);
    assert ReachedBy(a, b, Pair(a.start, b.start), []);
  }

  lemma SearchAdvance(a: Nfa, b: Nfa, alphabet: set<int>, work: Work, words: seq<seq<int>>, head: nat, intersection: bool)
    requires a.Valid() && b.Valid() && Searching(a, b, alphabet, work, words, head, intersection) && head < |work.queue|
    requires ValidPair(a, b, work.queue[head])
    requires !Decisive(a, b, Elements(work.queue[head].a), Elements(work.queue[head].b), intersection)
    requires forall c :: c in alphabet ==> Expanded(a, b, work.queue, work.queue[head], c, intersection)
    ensures Searching(a, b, alphabet, work, words, head + 1, intersection)
  {
    hide Tracked, Explored, Decisive, Expanded;
  }

  lemma HeadValid(a: Nfa, b: Nfa, alphabet: set<int>, work: Work, words: seq<seq<int>>, head: nat, intersection: bool)
    requires a.Valid() && b.Valid() && Searching(a, b, alphabet, work, words, head, intersection) && head < |work.queue|
    ensures ValidPair(a, b, work.queue[head])
    ensures States(a.chars, Elements(work.queue[head].a)) && States(b.chars, Elements(work.queue[head].b))
  { }

  /** A pair whose key was not seen is a new one, and its charge is what it adds. */
  lemma Explore(a: Nfa, b: Nfa, alphabet: set<int>, queue: seq<Pair>, words: seq<seq<int>>, seen: set<seq<Byte>>,
                head: nat, p: Pair, c: int, intersection: bool)
    requires a.Valid() && b.Valid() && Explored(a, b, alphabet, queue, intersection)
    requires Tracked(a, b, alphabet, queue, words, seen) && head < |queue| && c in alphabet
    requires ValidPair(a, b, p) && Encodable(p.a) && Encodable(p.b) && StateKey(p.a, p.b) !in seen
    requires Elements(p.a) == StepSet(a.chars, Elements(queue[head].a), c)
    requires Elements(p.b) == StepSet(b.chars, Elements(queue[head].b), c)
    requires !Dead(Elements(p.a), Elements(p.b), intersection)
    ensures Explored(a, b, alphabet, queue + [p], intersection)
    ensures Weight((queue + [p])[1..]) == Weight(queue[1..]) + Charge(p)
  {
    hide StateKey, Encodable, StepSet, Dead, Charge;
    var word := words[head] + [c];
    assert word[..|word| - 1] == words[head];
    assert ReachedBy(a, b, queue[head], words[head]);
    assert ReachedBy(a, b, p, word);
    assert Reachable(a, b, alphabet, p);
    assert (queue + [p])[1..] == queue[1..] + [p];
    assert (queue[1..] + [p])[..|queue| - 1] == queue[1..];
  }

  /** All of this for a successor whose key was not seen before. */
  lemma Discovered(a: Nfa, b: Nfa, alphabet: set<int>, work: Work, words: seq<seq<int>>, head: nat, p: Pair, c: int,
                   intersection: bool)
    requires a.Valid() && b.Valid() && Searching(a, b, alphabet, work, words, head, intersection)
    requires head < |work.queue| && c in alphabet && ValidPair(a, b, work.queue[head])
    requires ValidPair(a, b, p) && Encodable(p.a) && Encodable(p.b) && StateKey(p.a, p.b) !in work.seen
    requires Elements(p.a) == StepSet(a.chars, Elements(work.queue[head].a), c)
    requires Elements(p.b) == StepSet(b.chars, Elements(work.queue[head].b), c)
    requires !Dead(Elements(p.a), Elements(p.b), intersection)
    ensures |words| == |work.queue|
    ensures Explored(a, b, alphabet, work.queue + [p], intersection)
    ensures Weight((work.queue + [p])[1..]) == Weight(work.queue[1..]) + Charge(p)
    ensures Expanded(a, b, work.queue + [p], work.queue[head], c, intersection)
    ensures Searching(a, b, alphabet, work.(queue := work.queue + [p], seen := work.seen + {StateKey(p.a, p.b)}),
                      words + [words[head] + [c]], head, intersection)
  {
    hide Exhausted, Explored, Dead, StepSet, StateKey, Weight, Charge, Expanded, Encodable;
    assert |words| == |work.queue|;
    hide Tracked;
    Enqueue(a, b, alphabet, work.queue, head, p, c, intersection);
    Track(a, b, alphabet, work.queue, words, work.seen, head, p, c);
    Explore(a, b, alphabet, work.queue, words, work.seen, head, p, c, intersection);
  }

  /** A pair whose key was seen before is already in the queue. */
  lemma AlreadySeen(a: Nfa, b: Nfa, alphabet: set<int>, work: Work, words: seq<seq<int>>, head: nat, p: Pair, c: int,
                    intersection: bool)
    requires a.Valid() && b.Valid() && Searching(a, b, alphabet, work, words, head, intersection) && head < |work.queue|
    requires ValidPair(a, b, work.queue[head]) && Encodable(p.a) && Encodable(p.b) && StateKey(p.a, p.b) in work.seen
    requires Elements(p.a) == StepSet(a.chars, Elements(work.queue[head].a), c)
    requires Elements(p.b) == StepSet(b.chars, Elements(work.queue[head].b), c)
    ensures Expanded(a, b, work.queue, work.queue[head], c, intersection)
  {
    hide StateKey, Exhausted, Explored, StepSet, ReachedBy;
    var i :| 0 <= i < |work.queue| && StateKey(p.a, p.b) == StateKey(work.queue[i].a, work.queue[i].b);
    StateKeyInjective(p.a, p.b, work.queue[i].a, work.queue[i].b);
  }

  /** The pair at `head` settles the question: the word that reached it is a witness. */
  lemma HeadDecides(a: Nfa, b: Nfa, left: seq<Text>, right: seq<Text>, work: Work, words: seq<seq<int>>, head: nat,
                    intersection: bool)
    requires Compiles(a, left) && Compiles(b, right)
    requires Searching(a, b, Literals(a, b) + {-1}, work, words, head, intersection) && head < |work.queue|
    requires Decisive(a, b, Elements(work.queue[head].a), Elements(work.queue[head].b), intersection)
    ensures Verdict(left, right, intersection, intersection)
  {
    assert ReachedBy(a, b, work.queue[head], words[head]);
    FoundVerdict(a, b, left, right, words[head], intersection);
  }

  /** With nothing left to look at there is no witness, and the budgets sufficed. */
  lemma SearchEnds(a: Nfa, b: Nfa, alphabet: set<int>, left: seq<Text>, right: seq<Text>, work: Work, words: seq<seq<int>>,
                   intersection: bool)
    requires a.Valid() && b.Valid() && Searching(a, b, alphabet, work, words, |work.queue|, intersection)
    requires Metered(work, |work.queue|, |alphabet|, 0)
    requires Compiles(a, left) && Compiles(b, right) && alphabet == Literals(a, b) + {-1}
    ensures Verdict(left, right, intersection, !intersection)
    ensures !TooLarge(a, b, alphabet, intersection)
  {
    hide Exhausted, Tracked, Explored, Verdict, Compiles, TooLarge, Weight, Literals;
    NoneVerdict(a, b, left, right, work.queue, intersection);
    ExhaustedFits(a, b, alphabet, work.queue, intersection);
  }

  method Search(a: Nfa, b: Nfa, ghost left: seq<Text>, ghost right: seq<Text>, intersection: bool, expired: nat -> bool)
    returns (r: Result<bool>)
    requires Compiles(a, left) && Compiles(b, right)
    ensures r.Ok? ==> Verdict(left, right, intersection, r.value)
    ensures r.Ok? && r.value == !intersection ==> !TooLarge(a, b, Literals(a, b) + {-1}, intersection)
    ensures r.Err? ==> || (r.code == "resource_limit" && TooLarge(a, b, Literals(a, b) + {-1}, intersection))
                       || (r.code == "deadline_exceeded" && Expired(expired))
  {
    hide TooLarge, Searching, Literals, StateKey, Verdict, Expanded, ValidPair, Weight;
    var chars := Alphabet(a, b);
    SearchStart(a, b, chars, intersection);
    var key := EncodeKey(a.start, b.start);
    var work := Work([Pair(a.start, b.start)], {key}, 0, 0);
    ghost var words: seq<seq<int>> := [[]];
    var head := 0;
    while head < |work.queue|
      invariant head <= |work.queue|
      invariant Searching(a, b, chars, work, words, head, intersection)
      invariant Metered(work, head, |chars|, 0)
      decreases QUEUE_BUDGET - head
    {
      if expired(head) { return Err("deadline_exceeded"); }
      var s := work.queue[head];
      HeadValid(a, b, chars, work, words, head, intersection);
      var acceptA := a.Accepts(s.a);
      var acceptB := b.Accepts(s.b);
      if intersection && acceptA && acceptB {
        HeadDecides(a, b, left, right, work, words, head, intersection);
        return Ok(true);
      }
      if !intersection && acceptA && !acceptB {
        HeadDecides(a, b, left, right, work, words, head, intersection);
        return Ok(false);
      }
      var next: Result<Work>;
      next, words := Expand(a, b, chars, work, words, head, intersection);
      if next.Err? { return Err(next.code); }
      work := next.value;
      SearchAdvance(a, b, chars, work, words, head, intersection);
      head := head + 1;
    }
    SearchEnds(a, b, chars, left, right, work, words, intersection);
    return Ok(!intersection);
  }

  /** The inner loop: queue every successor of the pair at `head` that was not seen before. */
  method Expand(a: Nfa, b: Nfa, chars: set<int>, start: Work, ghost startWords: seq<seq<int>>, head: nat, intersection: bool)
    returns (r: Result<Work>, ghost words: seq<seq<int>>)
    requires a.Valid() && b.Valid() && head < |start.queue| && ValidPair(a, b, start.queue[head])
    requires Searching(a, b, chars, start, startWords, head, intersection) && Metered(start, head, |chars|, 0)
    ensures r.Err? ==> r.code == "resource_limit" && TooLarge(a, b, chars, intersection)
    ensures r.Ok? ==> start.queue <= r.value.queue && Metered(r.value, head + 1, |chars|, 0)
    ensures r.Ok? ==> Searching(a, b, chars, r.value, words, head, intersection)
    ensures r.Ok? ==> forall c :: c in chars ==> Expanded(a, b, r.value.queue, start.queue[head], c, intersection)
  {
    hide Searching, Expanded, TooLarge, ValidPair, Metered;
    var work := start;
    words := startWords;
    var rest := chars;
    while rest != {}
      invariant rest <= chars && start.queue <= work.queue
      invariant Searching(a, b, chars, work, words, head, intersection)
      invariant Metered(work, head, |chars|, |chars - rest|)
      invariant forall c :: c in chars - rest ==> Expanded(a, b, work.queue, start.queue[head], c, intersection)
      decreases |rest|
    {
      var c := Choose(rest);
      assert chars - (rest - {c}) == (chars - rest) + {c};
      var next: Result<Work>;
      ghost var done := |chars - rest|;
      assert done < |chars| by { SmallerSet(chars - rest, chars, c); }
      next, words := Follow(a, b, chars, work, words, head, c, done, intersection);
      if next.Err? { return Err(next.code), words; }
      ExpandedAllGrow(a, b, chars - rest, work.queue, next.value.queue, start.queue[head], intersection);
      work := next.value;
      rest := rest - {c};
    }
    assert chars - rest == chars;
    NextRow(work, head, |chars|);
    r := Ok(work);
  }

  lemma NextRow(work: Work, head: nat, symbols: nat)
    requires Metered(work, head, symbols, symbols)
    ensures Metered(work, head + 1, symbols, 0)
  {
    assert head * symbols + symbols == (head + 1) * symbols;
  }

  lemma SmallerSet(s: set<int>, t: set<int>, c: int)
    requires s <= t && c in t && c !in s
    ensures |s| < |t|
  {
    assert s <= t - {c};
    SubsetSize(s, t - {c});
  }

  lemma {:induction false} SubsetSize(s: set<int>, t: set<int>)
    requires s <= t
    ensures |s| <= |t|
  {
    if s != {} {
      var x := Witness(s);
      SubsetSize(s - {x}, t - {x});
    }
  }

  /** One turn of the inner loop: the successor of the pair at `head` on c. */
  method Follow(a: Nfa, b: Nfa, chars: set<int>, start: Work, ghost startWords: seq<seq<int>>, head: nat, c: int,
                ghost done: nat, intersection: bool)
    returns (r: Result<Work>, ghost words: seq<seq<int>>)
    requires a.Valid() && b.Valid() && head < |start.queue| && ValidPair(a, b, start.queue[head]) && c in chars
    requires Searching(a, b, chars, start, startWords, head, intersection)
    requires done < |chars| && Metered(start, head, |chars|, done)
    ensures r.Err? ==> r.code == "resource_limit" && TooLarge(a, b, chars, intersection)
    ensures r.Ok? ==> start.queue <= r.value.queue && Metered(r.value, head, |chars|, done + 1)
    ensures r.Ok? ==> Searching(a, b, chars, r.value, words, head, intersection)
    ensures r.Ok? ==> Expanded(a, b, r.value.queue, start.queue[head], c, intersection)
  {
    hide Searching, Expanded, TooLarge, StepSet, StateKey, Weight, Charge, Encodable, Dead;
    var Work(queue, seen, transitions, retained) := start;
    words := startWords;
    var s := queue[head];
    transitions := transitions + 1;
    if transitions > TRANSITION_BUDGET {
      TransitionsSpent(a, b, chars, start, words, head, done + 1, intersection);
      return Err("resource_limit"), words;
    }
    var x := a.Step(s.a, c);
    var y := b.Step(s.b, c);
    if |x| == 0 || (intersection && |y| == 0) {
      Pruned(a, b, queue, s, Pair(x, y), c, intersection);
      OnlyCounters(a, b, chars, start, Work(queue, seen, transitions, retained), words, head, intersection);
      return Ok(Work(queue, seen, transitions, retained)), words;
    }
    StatesEncodable(a, x);
    StatesEncodable(b, y);
    var key := EncodeKey(x, y);
    if key !in seen {
      retained := retained + 16 * (|x| + |y|) + |key| + 128;
      NotDead(x, y, intersection);
      KeyCharge(x, y);
      Discovered(a, b, chars, start, words, head, Pair(x, y), c, intersection);
      if retained > MEMORY_BUDGET {
        Overrun(a, b, chars, queue + [Pair(x, y)], intersection);
        return Err("resource_limit"), words;
      }
      seen := seen + {key};
      queue := queue + [Pair(x, y)];
      words := words + [words[head] + [c]];
      if |queue| > QUEUE_BUDGET {
        Overrun(a, b, chars, queue, intersection);
        return Err("resource_limit"), words;
      }
      OnlyCounters(a, b, chars, start, Work(queue, seen, transitions, retained), words, head, intersection);
    } else {
      AlreadySeen(a, b, chars, start, words, head, Pair(x, y), c, intersection);
      OnlyCounters(a, b, chars, start, Work(queue, seen, transitions, retained), words, head, intersection);
    }
    r := Ok(Work(queue, seen, transitions, retained));
  }

  /** The counters play no part in where the search stands. */
  lemma OnlyCounters(a: Nfa, b: Nfa, alphabet: set<int>, v: Work, w: Work, words: seq<seq<int>>, head: nat, intersection: bool)
    requires a.Valid() && b.Valid()
    requires Searching(a, b, alphabet, Work(w.queue, w.seen, v.transitions, v.retained), words, head, intersection)
    ensures Searching(a, b, alphabet, w, words, head, intersection)
  { }

  lemma Pruned(a: Nfa, b: Nfa, queue: seq<Pair>, s: Pair, p: Pair, c: int, intersection: bool)
    requires a.Valid() && b.Valid() && ValidPair(a, b, s)
    requires Elements(p.a) == StepSet(a.chars, Elements(s.a), c) && Elements(p.b) == StepSet(b.chars, Elements(s.b), c)
    requires p.a == [] || (intersection && p.b == [])
    ensures Expanded(a, b, queue, s, c, intersection)
  {
    HasElement(p.a);
    HasElement(p.b);
  }

  lemma NotDead(x: seq<int>, y: seq<int>, intersection: bool)
    requires x != [] && (intersection ==> y != [])
    ensures !Dead(Elements(x), Elements(y), intersection)
  {
    HasElement(x);
    HasElement(y);
  }

  lemma KeyCharge(x: seq<int>, y: seq<int>)
    requires Encodable(x) && Encodable(y)
    ensures 16 * (|x| + |y|) + |StateKey(x, y)| + 128 == Charge(Pair(x, y))
  { }

  lemma Overrun(a: Nfa, b: Nfa, alphabet: set<int>, queue: seq<Pair>, intersection: bool)
    requires a.Valid() && b.Valid() && Explored(a, b, alphabet, queue, intersection)
    requires queue != [] && (|queue| > QUEUE_BUDGET || Weight(queue[1..]) > MEMORY_BUDGET)
    ensures TooLarge(a, b, alphabet, intersection)
  {
    assert OverBudget(queue, |alphabet|);
  }

  /** The transitions so far are at most one for each pair and symbol. */
  lemma TransitionsSpent(a: Nfa, b: Nfa, alphabet: set<int>, work: Work, words: seq<seq<int>>, head: nat, done: nat,
                         intersection: bool)
    requires a.Valid() && b.Valid() && Searching(a, b, alphabet, work, words, head, intersection)
    requires head < |work.queue| && done <= |alphabet| && head * |alphabet| + done > TRANSITION_BUDGET
    ensures TooLarge(a, b, alphabet, intersection)
  {
    hide Explored, Exhausted, Tracked;
    TimesMonotone(head + 1, |work.queue|, |alphabet|);
    assert (head + 1) * |alphabet| == head * |alphabet| + |alphabet|;
    assert OverBudget(work.queue, |alphabet|);
  }

  lemma ExpandedAllGrow(a: Nfa, b: Nfa, cs: set<int>, queue: seq<Pair>, grown: seq<Pair>, p: Pair, intersection: bool)
    requires a.Valid() && b.Valid() && ValidPair(a, b, p) && queue <= grown
    requires forall c :: c in cs ==> Expanded(a, b, queue, p, c, intersection)
    ensures forall c :: c in cs ==> Expanded(a, b, grown, p, c, intersection)
  {
    hide Expanded;
    assert grown == queue + grown[|queue|..];
    forall c | c in cs ensures Expanded(a, b, grown, p, c, intersection) {
      ExpandedGrows(a, b, queue, grown[|queue|..], p, c, intersection);
    }
  }

  // ----- the scope decision

  const DOT_GLOB: Text := [DOT, STAR]

  /** A pattern may be used only inside the allowed indices and outside the denied and system ones. `expired` and `later`
      are the request deadline as the rounds of the two searches see it. */
  method ScopePattern(pattern: Text, allowed: seq<Text>, denied: seq<Text>, expired: nat -> bool, later: nat -> bool)
    returns (r: Result<()>)
    ensures r.Ok? ==> forall name: Text :: IsName(name) && Match(pattern, name) ==> InScope(allowed, denied, name)
    ensures r == Err("scope_denied") ==> exists name: Text :: IsName(name) && Match(pattern, name) && !InScope(allowed, denied, name)
    ensures r.Err? && r.code != "scope_denied" ==>
              || Justified([pattern], allowed, false, expired, r.code)
              || Justified([pattern], denied + [DOT_GLOB], true, later, r.code)
    ensures r.Ok? ==> Provable([pattern], allowed, false) && Provable([pattern], denied + [DOT_GLOB], true)
    ensures (Provable([pattern], allowed, false) && Provable([pattern], denied + [DOT_GLOB], true)
             && !Expired(expired) && !Expired(later)) ==> r.Ok? || r.code == "scope_denied"
  {
    hide Justified, Provable, Expired;
    SingleGlob(pattern);
    var contained := GlobRelation([pattern], allowed, false, expired);
    if contained.Err? {
      ErrorReason([pattern], allowed, false, expired, contained.code);
      return Err(contained.code);
    }
    if !contained.value {
      return Err("scope_denied");
    }
    var overlaps := GlobRelation([pattern], denied + [DOT_GLOB], true, later);
    if overlaps.Err? {
      ErrorReason([pattern], denied + [DOT_GLOB], true, later, overlaps.code);
      return Err(overlaps.code);
    }
    DeniedOrSystem(denied);
    if overlaps.value {
      return Err("scope_denied");
    }
    return Ok(());
  }

  lemma ErrorReason(left: seq<Text>, right: seq<Text>, intersection: bool, expired: nat -> bool, code: string)
    requires Justified(left, right, intersection, expired, code)
    ensures code != "scope_denied" && !(Provable(left, right, intersection) && !Expired(expired))
  { }

  /** What the configuration promises of a reachable index name. */
  ghost predicate InScope(allowed: seq<Text>, denied: seq<Text>, name: Text) {
    MatchAny(allowed, name) && !MatchAny(denied, name) && !(name != [] && name[0] == DOT)
  }

  lemma SingleGlob(pattern: Text)
    ensures forall name :: MatchAny([pattern], name) <==> Match(pattern, name)
  {
    forall name ensures MatchAny([pattern], name) <==> Match(pattern, name) {
      assert [pattern][0] == pattern;
    }
  }

  lemma {:induction false} StarMatchesAll(name: seq<int>)
    ensures Match([STAR], name)
    decreases |name|
  {
    if name != [] { StarMatchesAll(name[1..]); }
  }

  lemma DeniedOrSystem(denied: seq<Text>)
    ensures forall name :: MatchAny(denied + [DOT_GLOB], name) <==> MatchAny(denied, name) || (name != [] && name[0] == DOT)
  {
    forall name ensures MatchAny(denied + [DOT_GLOB], name) <==> MatchAny(denied, name) || (name != [] && name[0] == DOT) {
      var all := denied + [DOT_GLOB];
      assert all[|denied|] == DOT_GLOB && DOT_GLOB[1..] == [STAR];
      if name != [] { StarMatchesAll(name[1..]); }
      if i :| 0 <= i < |denied| && Match(denied[i], name) { assert all[i] == denied[i]; }
    }
  }
}
