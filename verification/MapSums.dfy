/** Sums over the values of a map, which do not depend on the order they are visited in. */
module MapSums {
  ghost function Sum<T>(m: map<string, T>, f: T -> real): real
    decreases |m|
  {
    if m == map[] then 0.0
    else
      var key :| key in m;
      f(m[key]) + Sum(m - {key}, f)
  }

  /** Any entry may be taken first. */
  lemma {:induction false} SumTakesAny<T>(m: map<string, T>, f: T -> real, key: string)
    requires key in m
    ensures Sum(m, f) == f(m[key]) + Sum(m - {key}, f)
    decreases |m|
  {
    var first :| first in m && Sum(m, f) == f(m[first]) + Sum(m - {first}, f);
    if first != key {
      SumTakesAny(m - {first}, f, key);
      SumTakesAny(m - {key}, f, first);
      assert m - {first} - {key} == m - {key} - {first};
    }
  }

  lemma SumUpdate<T>(m: map<string, T>, f: T -> real, key: string, value: T)
    ensures Sum(m[key := value], f) == Sum(m, f) - (if key in m then f(m[key]) else 0.0) + f(value)
  {
    SumTakesAny(m[key := value], f, key);
    assert m[key := value] - {key} == m - {key};
    if key in m {
      SumTakesAny(m, f, key);
    } else {
      assert m - {key} == m;
    }
  }

  lemma {:induction false} SumAdds<T(!new)>(m: map<string, T>, f: T -> real, g: T -> real, h: T -> real)
    requires forall x :: f(x) + g(x) == h(x)
    ensures Sum(m, f) + Sum(m, g) == Sum(m, h)
    decreases |m|
  {
    if m != map[] {
      var key :| key in m;
      SumTakesAny(m, f, key);
      SumTakesAny(m, g, key);
      SumTakesAny(m, h, key);
      SumAdds(m - {key}, f, g, h);
    }
  }
}
