/** The meaning of the `*`/`?` globs that name Elasticsearch indices and fields. */
module Glob {
  /** A Unicode scalar value, as produced by ranging over a Go string. */
  type Rune = r: int | IsScalar(r)

  predicate IsScalar(r: int) { 0 <= r < 0xD800 || 0xE000 <= r < 0x110000 }

  type Text = seq<Rune>

  const NUL: Rune := 0
  const STAR: Rune := 42      // '*'
  const QUESTION: Rune := 63  // '?'
  const DOT: Rune := 46       // '.'

  /** A name as an index can have it: any text without NUL. */
  predicate IsName(name: Text) { NUL !in name }

  /** The textbook definition: `?` stands for one symbol, `*` for any number of them. */
  predicate Match(glob: seq<int>, name: seq<int>)
    decreases |glob| + |name|
  {
    if glob == [] then name == []
    else if glob[0] == STAR then Match(glob[1..], name) || (name != [] && Match(glob, name[1..]))
    else name != [] && (glob[0] == QUESTION || glob[0] == name[0]) && Match(glob[1..], name[1..])
  }

  predicate MatchAny(globs: seq<seq<int>>, name: seq<int>) {
    exists i :: 0 <= i < |globs| && Match(globs[i], name)
  }

  /** `*` absorbs any prefix: the non-recursive reading of a leading star. */
  lemma {:induction false} StarAbsorbs(glob: seq<int>, name: seq<int>)
    requires glob != [] && glob[0] == STAR
    ensures Match(glob, name) <==> exists k :: 0 <= k <= |name| && Match(glob[1..], name[k..])
    decreases |name|
  {
    assert name[0..] == name;
    if name != [] {
      StarAbsorbs(glob, name[1..]);
      forall k | 0 <= k <= |name[1..]| ensures name[1..][k..] == name[k + 1..] { }
      if k :| 0 <= k <= |name| && Match(glob[1..], name[k..]) {
        if k > 0 { assert name[1..][k - 1..] == name[k..]; }
      }
    }
  }

  // ----- which patterns the service accepts at all

  predicate IsSpace(r: int) {
    9 <= r <= 13 || r == 32 || r == 0x85 || r == 0xA0 || r == 0x1680 || 0x2000 <= r <= 0x200A
    || r == 0x2028 || r == 0x2029 || r == 0x202F || r == 0x205F || r == 0x3000
  }

  predicate IsControl(r: int) { 0 <= r < 0x20 || 0x7F <= r < 0xA0 }

  /** One of / \ , : # % & [ ] = < > " | */
  predicate IsReserved(r: int) {
    r in [47, 92, 44, 58, 35, 37, 38, 91, 93, 61, 60, 62, 34, 124]
  }

  function Utf8Size(r: Rune): nat {
    if r < 0x80 then 1 else if r < 0x800 then 2 else if r < 0x10000 then 3 else 4
  }

  function ByteLength(s: Text): nat {
    if s == [] then 0 else Utf8Size(s[0]) + ByteLength(s[1..])
  }

  predicate ValidPattern(s: Text) {
    && s != [] && ByteLength(s) <= 255
    && s[0] !in [95, 45, 43]  // _ - +
    && s != [DOT] && s != [DOT, DOT]
    && forall i :: 0 <= i < |s| ==> !IsSpace(s[i]) && !IsControl(s[i]) && !IsReserved(s[i])
  }
}
