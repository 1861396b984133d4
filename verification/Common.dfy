/** Types shared by the models of the individual packages. */
module Common {

  /** A Go `(value, error)` return: the error is one of the service's failure codes. */
  datatype Result<+T> = Ok(value: T) | Err(code: string)

  datatype Option<+T> = None | Some(value: T)

  function Min(a: int, b: int): int { if a <= b then a else b }

  function Max(a: int, b: int): int { if a >= b then a else b }

  ghost function Elements<T>(s: seq<T>): set<T> { set x | x in s }

  ghost predicate StrictlyIncreasing(s: seq<int>) {
    forall i, j :: 0 <= i < j < |s| ==> s[i] < s[j]
  }

  /** A non-empty set has an element. */
  lemma Witness<T>(s: set<T>) returns (x: T)
    requires s != {}
    ensures x in s
  {
    x :| x in s;
  }

  ghost function Pick<T>(s: set<T>): T
    requires s != {}
  {
    var x :| x in s; x
  }

  /** The sum of the values of a map. */
  ghost function Total<K>(m: map<K, int>): int
    decreases m.Keys
  {
    if m.Keys == {} then 0 else
      var k := Pick(m.Keys);
      assert (m - {k}).Keys < m.Keys;
      m[k] + Total(m - {k})
  }

  lemma {:induction false} TotalRemove<K>(m: map<K, int>, k: K)
    requires k in m
    ensures Total(m) == m[k] + Total(m - {k})
    decreases m.Keys
  {
    var p := Pick(m.Keys);
    if p != k {
      assert (m - {p}).Keys < m.Keys;
      TotalRemove(m - {p}, k);
      assert (m - {k}).Keys < m.Keys;
      TotalRemove(m - {k}, p);
      assert m - {p} - {k} == m - {k} - {p};
    }
  }

  lemma TotalAdd<K>(m: map<K, int>, k: K, v: int)
    requires k !in m
    ensures Total(m[k := v]) == Total(m) + v
  {
    assert m[k := v] - {k} == m;
    TotalRemove(m[k := v], k);
  }

  /** Some element: the order in which Go ranges over a map is not determined. */
  method Choose<T>(s: set<T>) returns (x: T)
    requires s != {}
    ensures x in s
  {
    x :| x in s;
  }
}
