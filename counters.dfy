/**
 * The string-keyed counter the population engine keeps its specialist
 * allocations and specialist capacities in: a map whose lookup defaults to
 * zero, where adding to a key drops the key once its count reaches zero,
 * and where one counter is merged into another by adding key by key.
 */
module Counters {

  type Counter = map<string, int>

  /** Lookup with a default of zero for a missing key. */
  function Get(c: Counter, k: string): int
  {
    if k in c then c[k] else 0
  }

  /** `add(key, n)`: adds `n` to the count of `key`; a count that reaches zero leaves the map. */
  function Add(c: Counter, k: string, n: int): (r: Counter)
    ensures forall j :: Get(r, j) == Get(c, j) + (if j == k then n else 0)
    ensures r.Keys == if Get(c, k) + n == 0 then c.Keys - {k} else c.Keys + {k}
  {
    var v := Get(c, k) + n;
    if v == 0 then c - {k} else c[k := v]
  }

  /** `add(other)`: adds every entry of `d` into `c`, one key at a time. */
  function Merge(c: Counter, d: Counter): (r: Counter)
    ensures forall j :: Get(r, j) == Get(c, j) + Get(d, j)
    ensures forall j :: j in r <==> (j in c && j !in d) || (j in d && Get(c, j) + d[j] != 0)
  {
    map j | j in c.Keys + d.Keys && (j in d ==> Get(c, j) + d[j] != 0) :: Get(c, j) + Get(d, j)
  }

  /** Some key of a non-empty set; the same key every time it is asked for. */
  ghost function Pick(s: set<string>): (k: string)
    requires s != {}
    ensures k in s
  {
    var k :| k in s; k
  }

  /** The sum of all counts (`values.sum()`). */
  ghost function Total(c: Counter): int
    decreases |c.Keys|
  {
    if c == map[] then 0
    else
      var k := Pick(c.Keys);
      c[k] + Total(c - {k})
  }

  /** Any key can be taken out of the sum first. */
  lemma {:induction false} TotalRemove(c: Counter, k: string)
    requires k in c
    ensures Total(c) == c[k] + Total(c - {k})
    decreases |c.Keys|
  {
    var k' := Pick(c.Keys);
    if k' != k {
      TotalRemove(c - {k'}, k);
      TotalRemove(c - {k}, k');
      assert c - {k'} - {k} == c - {k} - {k'};
    }
  }

  /** Adding `n` to one key adds `n` to the sum, whether or not the key is dropped. */
  lemma TotalAdd(c: Counter, k: string, n: int)
    ensures Total(Add(c, k, n)) == Total(c) + n
  {
    if k in c {
      TotalRemove(c, k);
    } else {
      assert c - {k} == c;
    }
    var v := Get(c, k) + n;
    if v != 0 {
      var r := c[k := v];
      TotalRemove(r, k);
      assert r - {k} == c - {k};
    }
  }

  /** Overwriting the count of one key (`counter[key] = v`) changes the sum by the difference. */
  lemma TotalSet(c: Counter, k: string, v: int)
    ensures Total(c[k := v]) == Total(c) - Get(c, k) + v
  {
    if k in c {
      TotalRemove(c, k);
    } else {
      assert c - {k} == c;
    }
    var r := c[k := v];
    TotalRemove(r, k);
    assert r - {k} == c - {k};
  }

  /** A counter whose sum is not zero holds at least one key. */
  lemma TotalNonZeroHasKey(c: Counter)
    requires Total(c) != 0
    ensures c.Keys != {}
  {
  }

  /**
   * The capacity clamp of an allocation: every key of `cap` whose count in
   * `a` exceeds its capacity is overwritten with the capacity; every other
   * entry of `a` stays as it is.
   */
  function Clamp(a: Counter, cap: Counter): (r: Counter)
    ensures forall j :: Get(r, j) == if j in cap && Get(a, j) > cap[j] then cap[j] else Get(a, j)
    ensures forall j :: j in r <==> j in a || (j in cap && Get(a, j) > cap[j])
  {
    map j | j in a.Keys + cap.Keys && (j in a || Get(a, j) > cap[j]) ::
      if j in cap && Get(a, j) > cap[j] then cap[j] else a[j]
  }

  /** Clamping twice is clamping once. */
  lemma ClampIdempotent(a: Counter, cap: Counter)
    ensures Clamp(Clamp(a, cap), cap) == Clamp(a, cap)
  {
    var c := Clamp(a, cap);
    var cc := Clamp(c, cap);
    assert forall j :: j in cc <==> j in c;
    forall j | j in cc
      ensures cc[j] == c[j]
    {
      assert Get(cc, j) == Get(c, j);
    }
  }

  /** The entries of `c` whose key is in `keys`. */
  function Restrict(c: Counter, keys: set<string>): (r: Counter)
    ensures forall j :: j in r <==> j in c && j in keys
    ensures forall j :: j in r ==> r[j] == c[j]
  {
    map j | j in c && j in keys :: c[j]
  }

  /**
   * Clamping type by type: clamping to one more listed type overwrites that
   * type's count with its capacity when it exceeds it, and changes nothing else.
   */
  lemma ClampOneMore(a: Counter, cap: Counter, done: set<string>, k: string)
    requires k in cap && k !in done
    ensures var before := Clamp(a, Restrict(cap, done));
            Clamp(a, Restrict(cap, done + {k})) == if Get(before, k) > cap[k] then before[k := cap[k]] else before
  {
    var before := Clamp(a, Restrict(cap, done));
    var after := Clamp(a, Restrict(cap, done + {k}));
    var expected := if Get(before, k) > cap[k] then before[k := cap[k]] else before;
    assert forall j :: j in after <==> j in expected;
    forall j | j in after
      ensures after[j] == expected[j]
    {
      assert Get(after, j) == Get(expected, j);
    }
  }

  /** Clamping to no listed type changes nothing; listing every type of `cap` is clamping to `cap`. */
  lemma ClampRestrictEnds(a: Counter, cap: Counter)
    ensures Clamp(a, Restrict(cap, {})) == a
    ensures Clamp(a, Restrict(cap, cap.Keys)) == Clamp(a, cap)
  {
    assert Restrict(cap, cap.Keys) == cap;
    var c := Clamp(a, Restrict(cap, {}));
    assert forall j :: j in c <==> j in a;
    forall j | j in c
      ensures c[j] == a[j]
    {
      assert Get(c, j) == Get(a, j);
    }
  }

  /** The capacity of every specialist type: the merge, in order, of what each building grants. */
  function Capacity(grants: seq<Counter>): Counter
  {
    if grants == [] then map[] else Merge(Capacity(grants[..|grants| - 1]), grants[|grants| - 1])
  }

  /** The slots of type `k` that the buildings grant together. */
  function Slots(grants: seq<Counter>, k: string): int
  {
    if grants == [] then 0 else Slots(grants[..|grants| - 1], k) + Get(grants[|grants| - 1], k)
  }

  /** The capacity of a type is the sum of the slots every building grants for it. */
  lemma {:induction false} CapacityIsSumOfSlots(grants: seq<Counter>, k: string)
    ensures Get(Capacity(grants), k) == Slots(grants, k)
  {
    if grants != [] {
      CapacityIsSumOfSlots(grants[..|grants| - 1], k);
    }
  }

  /** A capacity built from buildings never holds a type with zero slots. */
  lemma {:induction false} CapacityHasNoZeros(grants: seq<Counter>)
    ensures forall j :: j in Capacity(grants) ==> Capacity(grants)[j] != 0
  {
    if grants != [] {
      CapacityHasNoZeros(grants[..|grants| - 1]);
    }
  }
}
