/** Summing multisets over the values of a map, in whatever order. */
module MapSums {

  ghost function Sum<K, T, V>(m: map<K, T>, f: T -> multiset<V>): multiset<V>
    decreases |m|
  {
    if m == map[] then multiset{}
    else
      var k :| k in m;
      f(m[k]) + Sum(m - {k}, f)
  }

  /** Any key can be split off. */
  lemma {:induction false} SumWithout<K, T, V>(m: map<K, T>, f: T -> multiset<V>, k: K)
    requires k in m
    ensures Sum(m, f) == f(m[k]) + Sum(m - {k}, f)
    decreases |m|
  {
    var j :| j in m && Sum(m, f) == f(m[j]) + Sum(m - {j}, f);
    if j != k {
      SumWithout(m - {j}, f, k);
      SumWithout(m - {k}, f, j);
      assert m - {j} - {k} == m - {k} - {j};
    }
  }

  lemma SumWith<K, T, V>(m: map<K, T>, f: T -> multiset<V>, k: K, v: T)
    requires k !in m
    ensures Sum(m[k := v], f) == Sum(m, f) + f(v)
  {
    SumWithout(m[k := v], f, k);
    assert m[k := v] - {k} == m;
  }

  lemma SumUpdate<K, T, V>(m: map<K, T>, f: T -> multiset<V>, k: K, v: T)
    requires k in m
    ensures Sum(m[k := v], f) + f(m[k]) == Sum(m, f) + f(v)
  {
    SumWithout(m, f, k);
    SumWith(m - {k}, f, k, v);
    assert (m - {k})[k := v] == m[k := v];
  }

  /** Each value contributes all it has. */
  lemma SumCovers<K, T, V>(m: map<K, T>, f: T -> multiset<V>, k: K)
    requires k in m
    ensures f(m[k]) <= Sum(m, f)
  {
    SumWithout(m, f, k);
  }

  lemma SumUpdateLess<K, T, V>(m: map<K, T>, f: T -> multiset<V>, k: K, v: T)
    requires k in m && f(v) <= f(m[k])
    ensures Sum(m[k := v], f) <= Sum(m, f) && Sum(m - {k}, f) <= Sum(m, f)
  {
    SumWithout(m, f, k);
    SumWith(m - {k}, f, k, v);
    assert (m - {k})[k := v] == m[k := v];
  }

  lemma Regroup<V>(a: multiset<V>, b: multiset<V>, c: multiset<V>)
    ensures a + (b + c) == (a + b) + c
  {
  }

  /** A map falls into a part of itself and the rest. */
  lemma {:induction false} SumSplit<K, T, V>(m: map<K, T>, f: T -> multiset<V>, part: map<K, T>)
    requires part.Keys <= m.Keys && forall k | k in part :: part[k] == m[k]
    ensures Sum(m, f) == Sum(part, f) + Sum(m - part.Keys, f)
    decreases |part|
  {
    if part == map[] {
      assert m - part.Keys == m;
      Regroup(multiset{}, multiset{}, Sum(m, f));
    } else {
      var k :| k in part;
      var rest := m - part.Keys;
      assert Sum(m - {k}, f) == Sum(part - {k}, f) + Sum(rest, f) by {
        SumSplit(m - {k}, f, part - {k});
        assert m - {k} - (part - {k}).Keys == rest;
      }
      SumWithout(m, f, k);
      SumWithout(part, f, k);
      Regroup(f(m[k]), Sum(part - {k}, f), Sum(rest, f));
    }
  }

  lemma MinusTwice<V>(all: multiset<V>, one: multiset<V>, rest: multiset<V>)
    requires one + rest <= all
    ensures rest <= all - one && all - (one + rest) == all - one - rest
  {
    forall v ensures rest[v] <= (all - one)[v] {
      assert (one + rest)[v] <= all[v];
    }
  }

  lemma SumOfPart<K, T, V>(m: map<K, T>, f: T -> multiset<V>, part: map<K, T>)
    requires part.Keys <= m.Keys && forall k | k in part :: part[k] == m[k]
    ensures Sum(part, f) <= Sum(m, f)
  {
    SumSplit(m, f, part);
  }

  /** With the sum of a part taken off a total that covers all, one value more can be taken off. */
  lemma SumOneMore<K, T, V>(m: map<K, T>, f: T -> multiset<V>, part: map<K, T>, k: K, total: multiset<V>)
    requires part.Keys <= m.Keys && (forall j | j in part :: part[j] == m[j])
    requires k in m && k !in part && Sum(m, f) <= total
    ensures f(m[k]) <= total - Sum(part, f)
    ensures total - Sum(part, f) - f(m[k]) == total - Sum(part[k := m[k]], f)
    ensures |part[k := m[k]]| == |part| + 1
  {
    var part' := part[k := m[k]];
    SumWith(part, f, k, m[k]);
    SumOfPart(m, f, part');
    var a, b, c := Sum(part, f), f(m[k]), Sum(part', f);
    assert c == a + b && c <= total;
    MinusTwice(total, a, b);
  }

  // ---- taking entries out one by one ------------------------------------------------------

  ghost predicate Part<K, T>(part: map<K, T>, all: map<K, T>) {
    forall k | k in part :: k in all && part[k] == all[k]
  }

  /**
   Of the entries `gone`, which are to go from `all` and their sum from `total`, those in `done` have
   gone; `now` and `left` are what there is at present.
   */
  ghost predicate Draining<K, T, V>(all: map<K, T>, f: T -> multiset<V>, total: multiset<V>,
                                    gone: map<K, T>, done: map<K, T>, now: map<K, T>, left: multiset<V>)
  {
    && Part(gone, all) && Part(done, gone) && Sum(gone, f) <= total
    && now == all - done.Keys && left == total - Sum(done, f)
  }

  lemma NothingDrained<K, T, V>(all: map<K, T>, f: T -> multiset<V>, total: multiset<V>, gone: map<K, T>)
    requires Part(gone, all) && Sum(gone, f) <= total
    ensures Draining(all, f, total, gone, map[], all, total)
  {
  }

  lemma DrainOneMore<K, T, V>(all: map<K, T>, f: T -> multiset<V>, total: multiset<V>,
                              gone: map<K, T>, done: map<K, T>, now: map<K, T>, left: multiset<V>, k: K)
    requires Draining(all, f, total, gone, done, now, left) && k in gone && k in now
    ensures now[k] == gone[k] && f(gone[k]) <= left
    ensures Draining(all, f, total, gone, done[k := gone[k]], now - {k}, left - f(gone[k]))
    ensures |done[k := gone[k]]| == |done| + 1
  {
    KeysOneMore(all, done, k, gone[k]);
    SumOneMore(gone, f, done, k, total);
  }

  lemma KeysOneMore<K, T>(all: map<K, T>, done: map<K, T>, k: K, v: T)
    ensures all - done.Keys - {k} == all - done[k := v].Keys
  {
  }

  lemma AllDrained<K, T, V>(all: map<K, T>, f: T -> multiset<V>, total: multiset<V>,
                            gone: map<K, T>, done: map<K, T>, now: map<K, T>, left: multiset<V>)
    requires Draining(all, f, total, gone, done, now, left) && forall k | k in now :: k !in gone
    ensures now == all - gone.Keys && left == total - Sum(gone, f) && |done| == |gone|
  {
    assert done == gone;
  }
}
