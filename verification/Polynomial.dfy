/** Polynomials over the field of two elements, as the finite set of exponents with coefficient one. */
module Polynomial {

  type Poly = set<nat>

  function Add(a: Poly, b: Poly): (c: Poly)
    ensures forall e: nat :: e in c <==> (e in a) != (e in b)
  {
    (a - b) + (b - a)
  }

  /** a times x^k. */
  function Shift(a: Poly, k: nat): (c: Poly)
    ensures forall e: nat :: e in c <==> e >= k && e - k in a
  {
    set e | e in a :: e + k
  }

  /** q times the generator x^16 + x^12 + x^5 + 1. */
  function TimesGenerator(q: Poly): Poly {
    Add(Shift(q, 16), Add(Shift(q, 12), Add(Shift(q, 5), q)))
  }

  const GENERATOR: Poly := {16, 12, 5, 0}

  predicate Below(a: Poly, degree: nat) { forall e :: e in a ==> e < degree }

  /** r is the remainder of a on division by the generator. */
  ghost predicate Remainder(a: Poly, r: Poly) {
    Below(r, 16) && exists q: Poly :: a == Add(TimesGenerator(q), r)
  }

  lemma GeneratorIsOnce()
    ensures TimesGenerator({0}) == GENERATOR
  { }

  /** Multiplication by the generator distributes over addition. */
  lemma Distributes(p: Poly, q: Poly)
    ensures TimesGenerator(Add(p, q)) == Add(TimesGenerator(p), TimesGenerator(q))
  { }

  lemma ShiftsCommute(a: Poly, i: nat, j: nat)
    ensures Shift(Shift(a, i), j) == Shift(Shift(a, j), i)
  { }

  lemma ShiftTwice(a: Poly, i: nat, j: nat)
    ensures Shift(Shift(a, i), j) == Shift(a, i + j)
  { }

  lemma ShiftSum(a: Poly, b: Poly, k: nat)
    ensures Shift(Add(a, b), k) == Add(Shift(a, k), Shift(b, k))
  { }

  lemma ShiftProduct(q: Poly, k: nat)
    ensures Shift(TimesGenerator(q), k) == TimesGenerator(Shift(q, k))
  {
    var s16, s12, s5 := Shift(q, 16), Shift(q, 12), Shift(q, 5);
    ShiftSum(s16, Add(s12, Add(s5, q)), k);
    ShiftSum(s12, Add(s5, q), k);
    ShiftSum(s5, q, k);
    ShiftsCommute(q, 16, k);
    ShiftsCommute(q, 12, k);
    ShiftsCommute(q, 5, k);
    hide Add, Shift;
  }

  /** a exceeds r by a multiple of the generator. */
  ghost predicate Congruent(a: Poly, r: Poly) { exists q: Poly :: a == Add(TimesGenerator(q), r) }

  lemma CongruentShift(a: Poly, r: Poly)
    requires Congruent(a, r)
    ensures Congruent(Shift(a, 1), Shift(r, 1))
  {
    hide TimesGenerator;
    var q: Poly :| a == Add(TimesGenerator(q), r);
    ShiftSum(TimesGenerator(q), r, 1);
    ShiftProduct(q, 1);
    assert Shift(a, 1) == Add(TimesGenerator(Shift(q, 1)), Shift(r, 1));
  }

  lemma CongruentAdd(a: Poly, r: Poly, b: Poly)
    requires Congruent(a, r)
    ensures Congruent(Add(a, b), Add(r, b))
  {
    hide TimesGenerator;
    var q: Poly :| a == Add(TimesGenerator(q), r);
    assert Add(a, b) == Add(TimesGenerator(q), Add(r, b));
  }

  lemma SumsRegroup(a: Poly, b: Poly, c: Poly)
    ensures Add(Add(a, b), Add(c, b)) == Add(a, c)
  { }

  lemma CongruentReduce(a: Poly, r: Poly)
    requires Congruent(a, r)
    ensures Congruent(a, Add(r, GENERATOR))
  {
    var q: Poly :| a == Add(TimesGenerator(q), r);
    Distributes(q, {0});
    GeneratorIsOnce();
    SumsRegroup(TimesGenerator(q), GENERATOR, r);
    hide TimesGenerator, Add, Shift;
    assert a == Add(TimesGenerator(Add(q, {0})), Add(r, GENERATOR));
  }

  lemma Largest(q: Poly) returns (m: nat)
    requires q != {}
    ensures m in q && forall e :: e in q ==> e <= m
    decreases q
  {
    var first: nat :| first in q;
    var rest := q - {first};
    m := first;
    if rest != {} {
      var n := Largest(rest);
      m := if n > first then n else first;
    }
    forall e | e in q ensures e <= m { assert e == first || e in rest; }
  }

  /** A non-zero multiple of the generator has degree sixteen or more. */
  lemma MultiplesAreHigh(q: Poly)
    requires q != {}
    ensures !Below(TimesGenerator(q), 16)
  {
    var m := Largest(q);
    assert m + 16 in TimesGenerator(q);
  }

  lemma SumsCancel(a: Poly, b: Poly, r: Poly, s: Poly)
    requires Add(a, r) == Add(b, s)
    ensures Add(a, b) == Add(r, s)
  {
    forall e: nat ensures e in Add(a, b) <==> e in Add(r, s) {
      assert (e in Add(a, r)) == (e in Add(b, s));
    }
  }

  /** Division has only one remainder. */
  lemma RemainderUnique(a: Poly, r: Poly, s: Poly)
    requires Remainder(a, r) && Remainder(a, s)
    ensures r == s
  {
    var p: Poly :| a == Add(TimesGenerator(p), r);
    var q: Poly :| a == Add(TimesGenerator(q), s);
    Distributes(p, q);
    SumsCancel(TimesGenerator(p), TimesGenerator(q), r, s);
    hide TimesGenerator, Shift;
    if Add(p, q) != {} { MultiplesAreHigh(Add(p, q)); }
    assert p == q by { assert forall e: nat :: e in Add(p, q) <==> (e in p) != (e in q); }
    assert forall e: nat :: e in Add(r, s) <==> (e in r) != (e in s);
  }
}
