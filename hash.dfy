/** hash/hash.py: `HashMap` and `HashSet`, open addressing with linear probing over a
    power-of-two table, parameterised by a hash and an equality function.

    A probe for key k starts at the home slot hash(k) & mask, which for a power-of-two size is
    hash(k) % size (Dafny's % is Euclidean, like Python's & on negative numbers), and steps to
    (index + 1) & mask, i.e. (index + 1) % size. An empty slot is Empty; the program's
    `key_empty` sentinel is never a key in any of its uses. The pure functions below describe
    where a probe stops; the classes' methods are proved against them, and the lemmas state what
    the tables promise. */
module Hash {
  import opened Base

  datatype Slot<K> = Empty | Full(key: K)

  /** The 1e-9 added to the capacity hint before taking the logarithm. */
  const Epsilon: real := 0.000000001

  function Pow2(e: nat): (p: nat)
    ensures p >= 1
  {
    if e == 0 then 1 else 2 * Pow2(e - 1)
  }

  predicate IsPow2(n: nat)
    decreases n
  {
    n == 1 || (n > 1 && n % 2 == 0 && IsPow2(n / 2))
  }

  lemma {:induction false} Pow2Facts(e: nat)
    ensures IsPow2(Pow2(e))
    ensures e >= 4 ==> Pow2(e) >= 16
  {
    if e > 0 {
      Pow2Facts(e - 1);
      assert Pow2(e) / 2 == Pow2(e - 1);
    }
  }

  /** The exponent of the table size: the least e >= 4 with 2^e >= hint + 1e-9, which is
      max(4, ceil(log2(hint + 1e-9))) computed exactly. */
  function Exponent(hint: real, e: nat): (r: nat)
    requires hint >= 0.0 && e >= 4
    requires e == 4 || (Pow2(e - 1) as real) < hint + Epsilon
    ensures r >= 4
    ensures Pow2(r) as real >= hint + Epsilon
    ensures r == 4 || (Pow2(r - 1) as real) < hint + Epsilon
    decreases (hint + 1.0).Floor - Pow2(e)
  {
    if Pow2(e) as real >= hint + Epsilon then e else Exponent(hint, e + 1)
  }

  /** The table size chosen for a capacity hint (hash.py:13 and 103). */
  function TableSize(hint: real): (s: nat)
    requires hint >= 0.0
    ensures IsPow2(s) && s >= 16
    ensures s as real >= hint + Epsilon
    ensures s == 16 || ((s / 2) as real) < hint + Epsilon
  {
    var e := Exponent(hint, 4);
    Pow2Facts(e);
    Pow2(e)
  }

  // ---------------------------------------------------------------- probing, as pure functions

  /** The slot u steps after home slot h in a table of n slots: (h + u) % n for h, u < n. */
  function Wrap(h: nat, u: nat, n: nat): (i: nat)
    requires h < n && u < n
    ensures i < n
  {
    if h + u < n then h + u else h + u - n
  }

  /** How many steps slot j lies after home slot h: the inverse of Wrap. */
  function Dist(h: nat, j: nat, n: nat): (u: nat)
    requires h < n && j < n
    ensures u < n && Wrap(h, u, n) == j
  {
    if h <= j then j - h else j + n - h
  }

  /** The slot after slot i: (i + 1) & mask, which for a power-of-two size and i < size is
      i + 1, wrapping to 0 at the end. */
  function Next(i: nat, n: nat): (r: nat)
    requires i < n
    ensures r < n
  {
    if i + 1 == n then 0 else i + 1
  }

  function Home<K>(slots: seq<Slot<K>>, hash: K -> int, k: K): (h: nat)
    requires |slots| > 0
    ensures h < |slots|
  {
    hash(k) % |slots|
  }

  /** A probe for k stops at slot i when the slot is empty or holds a key equal to k; the
      stored key is the first argument of `equal`, as in the program. */
  predicate Stops<K>(slots: seq<Slot<K>>, equal: (K, K) -> bool, k: K, i: nat)
    requires i < |slots|
  {
    slots[i].Empty? || equal(slots[i].key, k)
  }

  /** Whether the probe for k from home h stops u steps along. */
  predicate StopsAt<K>(slots: seq<Slot<K>>, equal: (K, K) -> bool, k: K, h: nat, u: nat)
    requires h < |slots| && u < |slots|
  {
    Stops(slots, equal, k, Wrap(h, u, |slots|))
  }

  /** How many slots a probe for k passes over, starting at home h and looking at no more than
      `limit` slots: `limit` when none of them stops it. */
  function Probe<K>(slots: seq<Slot<K>>, equal: (K, K) -> bool, k: K, h: nat, limit: nat, t: nat): (d: nat)
    requires h < |slots| && limit <= |slots| && t <= limit
    ensures t <= d <= limit
    ensures d < limit ==> StopsAt(slots, equal, k, h, d)
    ensures forall u :: t <= u < d ==> !StopsAt(slots, equal, k, h, u)
    decreases limit - t
  {
    if t == limit then limit
    else if StopsAt(slots, equal, k, h, t) then t
    else Probe(slots, equal, k, h, limit, t + 1)
  }

  /** The slot `set` (limit = size) or `maybe_set` (limit = size - 1) writes k to, or None when
      the probe gives up. */
  function Place<K>(slots: seq<Slot<K>>, hash: K -> int, equal: (K, K) -> bool, k: K, limit: nat): (r: Option<nat>)
    requires 0 < |slots| && limit <= |slots|
    ensures r.Some? ==> r.value < |slots| && Stops(slots, equal, k, r.value)
  {
    var h := Home(slots, hash, k);
    var d := Probe(slots, equal, k, h, limit, 0);
    if d < limit then Some(Wrap(h, d, |slots|)) else None
  }

  /** The slot `get`/`has` find k in: one holding an equal key, when the probe reaches it. */
  function Find<K>(slots: seq<Slot<K>>, hash: K -> int, equal: (K, K) -> bool, k: K): (r: Option<nat>)
    requires |slots| > 0
    ensures r.Some? ==> r.value < |slots| && slots[r.value].Full? && equal(slots[r.value].key, k)
  {
    var p := Place(slots, hash, equal, k, |slots|);
    if p.Some? && slots[p.value].Full? then p else None
  }

  /** The key slots after a write of k to slot j: an occupied slot keeps its key. */
  function Insert<K>(slots: seq<Slot<K>>, j: nat, k: K): (r: seq<Slot<K>>)
    requires j < |slots|
    ensures |r| == |slots|
  {
    if slots[j].Full? then slots else slots[j := Full(k)]
  }

  /** What `maybe_set(key, value)` returns and leaves in the key and value slots: the stored
      value when the probe meets an equal key, and value with key stored in the empty slot the
      probe meets otherwise. */
  function MaybeSetOutcome<K, V>(slots: seq<Slot<K>>, vals: seq<V>, hash: K -> int, equal: (K, K) -> bool, key: K, value: V)
    : (r: Result<(V, seq<Slot<K>>, seq<V>)>)
    requires 0 < |slots| == |vals|
    ensures r.Ok? <==> Place(slots, hash, equal, key, |slots| - 1).Some?
    ensures r.Fail? ==> r.error == FullHashMap
    ensures r.Ok? ==> r.value.1 == Insert(slots, Place(slots, hash, equal, key, |slots| - 1).value, key) &&
                      |r.value.2| == |vals|
  {
    var p := Place(slots, hash, equal, key, |slots| - 1);
    if p.None? then Fail(FullHashMap)
    else if slots[p.value].Full? then Ok((vals[p.value], slots, vals))
    else Ok((value, slots[p.value := Full(key)], vals[p.value := value]))
  }

  /** The number of empty slots. */
  function CountEmpty<K>(slots: seq<Slot<K>>): (n: nat)
    ensures n <= |slots|
  {
    if slots == [] then 0
    else CountEmpty(slots[..|slots| - 1]) + (if slots[|slots| - 1].Empty? then 1 else 0)
  }

  /** The set of stored keys. */
  ghost function Keys<K>(slots: seq<Slot<K>>): set<K>
  {
    set j | 0 <= j < |slots| && slots[j].Full? :: slots[j].key
  }

  /** Under plain equality, a write of k where the probe for k stops adds k to the stored keys
      and nothing else. */
  lemma InsertKeys<K>(slots: seq<Slot<K>>, hash: K -> int, equal: (K, K) -> bool, k: K, limit: nat)
    requires 0 < |slots| && limit <= |slots|
    requires forall a, b :: equal(a, b) <==> a == b
    requires Place(slots, hash, equal, k, limit).Some?
    ensures Keys(Insert(slots, Place(slots, hash, equal, k, limit).value, k)) == Keys(slots) + {k}
  {
    var j := Place(slots, hash, equal, k, limit).value;
    var s' := Insert(slots, j, k);
    assert k in Keys(s') by {
      assert s'[j] == Full(k);
    }
    forall a | a in Keys(s')
      ensures a in Keys(slots) + {k}
    {
      var t :| 0 <= t < |s'| && s'[t].Full? && s'[t].key == a;
      if t != j || slots[j].Full? {
        assert slots[t] == s'[t];
      }
    }
    forall a | a in Keys(slots)
      ensures a in Keys(s')
    {
      var t :| 0 <= t < |slots| && slots[t].Full? && slots[t].key == a;
      assert s'[t] == slots[t];
    }
  }

  /** The keys of the occupied slots, in slot order (what `HashSet.values` lists). */
  function FullKeys<K>(slots: seq<Slot<K>>): (ks: seq<K>)
    ensures |ks| + CountEmpty(slots) == |slots|
    ensures forall j :: 0 <= j < |slots| && slots[j].Full? ==> slots[j].key in ks
    ensures forall k :: k in ks ==> Full(k) in slots
  {
    if slots == [] then []
    else
      var init := slots[..|slots| - 1];
      assert forall j :: 0 <= j < |init| ==> init[j] == slots[j];
      FullKeys(init) + (if slots[|slots| - 1].Full? then [slots[|slots| - 1].key] else [])
  }

  /** Whether the slot u steps after home h is occupied. */
  predicate FullAt<K>(slots: seq<Slot<K>>, h: nat, u: nat)
    requires h < |slots| && u < |slots|
  {
    slots[Wrap(h, u, |slots|)].Full?
  }

  /** Every occupied slot is reachable from its key's home slot through occupied slots: the
      invariant that linear probing keeps. */
  ghost predicate NoHoles<K>(slots: seq<Slot<K>>, hash: K -> int)
  {
    |slots| > 0 ==>
      forall j, u ::
        0 <= j < |slots| && slots[j].Full? && 0 <= u < Dist(Home(slots, hash, slots[j].key), j, |slots|)
        ==> FullAt(slots, Home(slots, hash, slots[j].key), u)
  }

  /** `equal` is an equivalence and `hash` agrees with it. */
  ghost predicate Proper<K(!new)>(hash: K -> int, equal: (K, K) -> bool)
  {
    (forall a :: equal(a, a)) &&
    (forall a, b :: equal(a, b) ==> equal(b, a)) &&
    (forall a, b, c :: equal(a, b) && equal(b, c) ==> equal(a, c)) &&
    (forall a, b :: equal(a, b) ==> hash(a) == hash(b))
  }

  // ---------------------------------------------------------------- what the tables promise

  /** `set` of k followed by `get` of k finds k in the slot it was written to. */
  lemma FindAfterInsert<K>(slots: seq<Slot<K>>, hash: K -> int, equal: (K, K) -> bool, k: K, limit: nat)
    requires 0 < |slots| && limit <= |slots|
    requires forall a :: equal(a, a)
    requires Place(slots, hash, equal, k, limit).Some?
    ensures var j := Place(slots, hash, equal, k, limit).value;
            Find(Insert(slots, j, k), hash, equal, k) == Some(j)
  {
    var n := |slots|;
    var h := Home(slots, hash, k);
    var d := Probe(slots, equal, k, h, limit, 0);
    var j := Wrap(h, d, n);
    var s' := Insert(slots, j, k);
    assert Home(s', hash, k) == h;
    forall u | 0 <= u < d
      ensures !StopsAt(s', equal, k, h, u)
    {
      assert !StopsAt(slots, equal, k, h, u);
    }
    assert StopsAt(s', equal, k, h, d);
    assert Probe(s', equal, k, h, n, 0) == d;
  }

  /** A key held by some slot is found, because no probe path has a hole. */
  lemma PresentFound<K(!new)>(slots: seq<Slot<K>>, hash: K -> int, equal: (K, K) -> bool, k: K, j: nat)
    requires |slots| > 0 && NoHoles(slots, hash) && Proper(hash, equal) && j < |slots|
    ensures slots[j].Full? && equal(slots[j].key, k) ==> Find(slots, hash, equal, k).Some?
  {
    var n := |slots|;
    var h := Home(slots, hash, k);
    var d := Probe(slots, equal, k, h, n, 0);
    if slots[j].Full? && equal(slots[j].key, k) {
      assert Home(slots, hash, slots[j].key) == h;
      var t := Dist(h, j, n);
      assert StopsAt(slots, equal, k, h, t);
      assert d <= t;
      assert FullAt(slots, h, d);
    }
  }

  /** An absent key is held by no slot at all. */
  lemma AbsentNowhere<K(!new)>(slots: seq<Slot<K>>, hash: K -> int, equal: (K, K) -> bool, k: K)
    requires |slots| > 0 && NoHoles(slots, hash) && Proper(hash, equal)
    ensures Find(slots, hash, equal, k).None? ==>
            forall j :: 0 <= j < |slots| && slots[j].Full? ==> !equal(slots[j].key, k)
  {
    forall j | 0 <= j < |slots|
      ensures slots[j].Full? && equal(slots[j].key, k) ==> Find(slots, hash, equal, k).Some?
    {
      PresentFound(slots, hash, equal, k, j);
    }
  }

  /** Under plain equality, a probe finds k exactly when k is stored. */
  lemma FoundIffKey<K(!new)>(slots: seq<Slot<K>>, hash: K -> int, equal: (K, K) -> bool, k: K)
    requires |slots| > 0 && NoHoles(slots, hash) && Proper(hash, equal)
    requires forall a, b :: equal(a, b) <==> a == b
    ensures Find(slots, hash, equal, k).Some? <==> k in Keys(slots)
  {
    if k in Keys(slots) {
      var t :| 0 <= t < |slots| && slots[t].Full? && slots[t].key == k;
      PresentFound(slots, hash, equal, k, t);
    }
  }

  /** `set` of k leaves every key not equal to k where it was, so its value is unchanged; the
      slot written to is not the one any such key is found in. */
  lemma FindOtherAfterInsert<K(!new)>(slots: seq<Slot<K>>, hash: K -> int, equal: (K, K) -> bool, k: K, limit: nat, k': K)
    requires 0 < |slots| && limit <= |slots|
    requires NoHoles(slots, hash) && Proper(hash, equal)
    requires Place(slots, hash, equal, k, limit).Some?
    requires !equal(k, k')
    ensures var j := Place(slots, hash, equal, k, limit).value;
            Find(Insert(slots, j, k), hash, equal, k') == Find(slots, hash, equal, k') &&
            Find(slots, hash, equal, k') != Some(j)
  {
    var n := |slots|;
    var j := Place(slots, hash, equal, k, limit).value;
    var s' := Insert(slots, j, k);
    if slots[j].Full? {
      assert equal(slots[j].key, k);
      assert !equal(slots[j].key, k');
    } else {
      var h' := Home(slots, hash, k');
      assert Home(s', hash, k') == h';
      var f := Find(slots, hash, equal, k');
      if f.Some? {
        var d := Probe(slots, equal, k', h', n, 0);
        assert StopsAt(slots, equal, k', h', Dist(h', j, n));
        assert Dist(h', j, n) > d;
        forall u | 0 <= u <= d
          ensures s'[Wrap(h', u, n)] == slots[Wrap(h', u, n)]
        {
          assert Dist(h', Wrap(h', u, n), n) == u;
        }
        ProbeAgrees(slots, s', equal, k', h', d);
      } else {
        AbsentNowhere(slots, hash, equal, k');
        assert forall i :: 0 <= i < n && s'[i].Full? ==> !equal(s'[i].key, k');
      }
    }
  }

  /** A probe that stops d steps along sees only the slots up to d: a table that agrees with
      this one there stops the probe at the same step. */
  lemma ProbeAgrees<K>(a: seq<Slot<K>>, b: seq<Slot<K>>, equal: (K, K) -> bool, k: K, h: nat, d: nat)
    requires |a| == |b| && h < |a| && d < |a|
    requires Probe(a, equal, k, h, |a|, 0) == d
    requires forall u :: 0 <= u <= d ==> b[Wrap(h, u, |b|)] == a[Wrap(h, u, |a|)]
    ensures Probe(b, equal, k, h, |b|, 0) == d
  {
    assert forall u :: 0 <= u <= d ==> StopsAt(a, equal, k, h, u) == StopsAt(b, equal, k, h, u);
  }

  /** A table with every slot empty has as many empty slots as slots. */
  lemma {:induction false} AllEmptyCount<K>(slots: seq<Slot<K>>)
    requires forall j :: 0 <= j < |slots| ==> slots[j].Empty?
    ensures CountEmpty(slots) == |slots|
  {
    if slots != [] {
      AllEmptyCount(slots[..|slots| - 1]);
    }
  }

  /** A probe that stops within a limit stops at the same slot under any wider limit; in
      particular the slot `maybe_set` stops at is the slot `get` stops at. */
  lemma PlaceWider<K>(slots: seq<Slot<K>>, hash: K -> int, equal: (K, K) -> bool, k: K, l1: nat, l2: nat)
    requires 0 < |slots| && l1 <= l2 <= |slots|
    requires Place(slots, hash, equal, k, l1).Some?
    ensures Place(slots, hash, equal, k, l2) == Place(slots, hash, equal, k, l1)
  {
    var h := Home(slots, hash, k);
    var d1 := Probe(slots, equal, k, h, l1, 0);
    var d2 := Probe(slots, equal, k, h, l2, 0);
    assert StopsAt(slots, equal, k, h, d1);
  }

  /** Writing k where `set` or `maybe_set` puts it keeps every probe path free of holes. */
  lemma NoHolesInsert<K>(slots: seq<Slot<K>>, hash: K -> int, equal: (K, K) -> bool, k: K, limit: nat)
    requires 0 < |slots| && limit <= |slots|
    requires NoHoles(slots, hash)
    requires Place(slots, hash, equal, k, limit).Some?
    ensures NoHoles(Insert(slots, Place(slots, hash, equal, k, limit).value, k), hash)
  {
    var n := |slots|;
    var h := Home(slots, hash, k);
    var d := Probe(slots, equal, k, h, limit, 0);
    var j := Wrap(h, d, n);
    var s' := Insert(slots, j, k);
    if slots[j].Empty? {
      forall i, u | 0 <= i < n && s'[i].Full? && 0 <= u < Dist(Home(s', hash, s'[i].key), i, n)
        ensures FullAt(s', Home(s', hash, s'[i].key), u)
      {
        if i == j {
          assert Dist(h, j, n) == d;
          assert !StopsAt(slots, equal, k, h, u);
        } else {
          assert slots[i] == s'[i];
          assert FullAt(slots, Home(slots, hash, slots[i].key), u);
        }
      }
    }
  }

  /** `set` gives up ("Full HashMap") exactly when every slot holds a key other than k: inserting
      a new key into a full table fails, while overwriting a present key never does. */
  lemma PlaceFailsIffFull<K>(slots: seq<Slot<K>>, hash: K -> int, equal: (K, K) -> bool, k: K)
    requires |slots| > 0
    ensures Place(slots, hash, equal, k, |slots|).None? <==>
            forall j :: 0 <= j < |slots| ==> slots[j].Full? && !equal(slots[j].key, k)
  {
    var n := |slots|;
    var h := Home(slots, hash, k);
    var d := Probe(slots, equal, k, h, n, 0);
    if d == n {
      forall j | 0 <= j < n
        ensures slots[j].Full? && !equal(slots[j].key, k)
      {
        assert !StopsAt(slots, equal, k, h, Dist(h, j, n));
      }
    }
  }

  lemma {:induction false} CountEmptyAt<K>(slots: seq<Slot<K>>, j: nat, k: K)
    requires j < |slots| && slots[j].Empty?
    ensures CountEmpty(slots[j := Full(k)]) + 1 == CountEmpty(slots)
  {
    var last := |slots| - 1;
    var s' := slots[j := Full(k)];
    if j < last {
      assert s'[..last] == slots[..last][j := Full(k)];
      CountEmptyAt(slots[..last], j, k);
    } else {
      assert s'[..last] == slots[..last];
    }
  }

  lemma {:induction false} OneEmpty<K>(slots: seq<Slot<K>>) returns (a: nat)
    requires CountEmpty(slots) >= 1
    ensures a < |slots| && slots[a].Empty?
  {
    var last := |slots| - 1;
    if slots[last].Empty? {
      a := last;
    } else {
      a := OneEmpty(slots[..last]);
    }
  }

  /** Two different empty slots exist when at least two slots are empty. */
  lemma {:induction false} TwoEmpty<K>(slots: seq<Slot<K>>) returns (a: nat, b: nat)
    requires CountEmpty(slots) >= 2
    ensures a < |slots| && b < |slots| && a != b && slots[a].Empty? && slots[b].Empty?
  {
    var last := |slots| - 1;
    var init := slots[..last];
    if slots[last].Empty? {
      a := last;
      b := OneEmpty(init);
    } else {
      a, b := TwoEmpty(init);
    }
  }

  /** `maybe_set` looks at one slot fewer than `set`, so it gives up only when at most one slot
      is empty. */
  lemma MaybeSetRoom<K>(slots: seq<Slot<K>>, hash: K -> int, equal: (K, K) -> bool, k: K)
    requires |slots| > 0
    requires Place(slots, hash, equal, k, |slots| - 1).None?
    ensures CountEmpty(slots) <= 1
  {
    var n := |slots|;
    var h := Home(slots, hash, k);
    if CountEmpty(slots) >= 2 {
      var a, b := TwoEmpty(slots);
      if Dist(h, a, n) < n - 1 {
        assert StopsAt(slots, equal, k, h, Dist(h, a, n));
      } else {
        assert StopsAt(slots, equal, k, h, Dist(h, b, n));
      }
    }
  }

  /** Two keys that are not equal end up in different slots and both stay retrievable, whether
      or not their hashes collide. */
  lemma TwoKeysApart<K(!new)>(slots: seq<Slot<K>>, hash: K -> int, equal: (K, K) -> bool, a: K, b: K)
    requires |slots| > 0 && NoHoles(slots, hash) && Proper(hash, equal)
    requires !equal(a, b)
    requires Place(slots, hash, equal, a, |slots|).Some?
    requires Place(Insert(slots, Place(slots, hash, equal, a, |slots|).value, a), hash, equal, b, |slots|).Some?
    ensures var i := Place(slots, hash, equal, a, |slots|).value;
            var s1 := Insert(slots, i, a);
            var j := Place(s1, hash, equal, b, |slots|).value;
            var s2 := Insert(s1, j, b);
            Find(s2, hash, equal, a) == Some(i) && Find(s2, hash, equal, b) == Some(j) && i != j
  {
    var n := |slots|;
    var i := Place(slots, hash, equal, a, n).value;
    var s1 := Insert(slots, i, a);
    FindAfterInsert(slots, hash, equal, a, n);
    NoHolesInsert(slots, hash, equal, a, n);
    FindAfterInsert(s1, hash, equal, b, n);
    FindOtherAfterInsert(s1, hash, equal, b, n, a);
  }

  /** Two keys that every stored key matches alike are probed alike. */
  lemma {:induction false} ProbeEqualKeys<K>(slots: seq<Slot<K>>, equal: (K, K) -> bool, a: K, b: K, h: nat, limit: nat, t: nat)
    requires h < |slots| && limit <= |slots| && t <= limit
    requires forall j :: 0 <= j < |slots| && slots[j].Full? ==> (equal(slots[j].key, a) <==> equal(slots[j].key, b))
    ensures Probe(slots, equal, a, h, limit, t) == Probe(slots, equal, b, h, limit, t)
    decreases limit - t
  {
    if t < limit {
      ProbeEqualKeys(slots, equal, a, b, h, limit, t + 1);
    }
  }

  /** `get` of a key equal to k finds what `get` of k finds. */
  lemma FindEqualKeys<K(!new)>(slots: seq<Slot<K>>, hash: K -> int, equal: (K, K) -> bool, a: K, b: K)
    requires |slots| > 0 && Proper(hash, equal) && equal(a, b)
    ensures Find(slots, hash, equal, a) == Find(slots, hash, equal, b)
  {
    assert Home(slots, hash, a) == Home(slots, hash, b);
    ProbeEqualKeys(slots, equal, a, b, Home(slots, hash, a), |slots|, 0);
  }

  /** `set` finds a slot for any key while some slot is empty. */
  lemma PlaceWhileRoom<K>(slots: seq<Slot<K>>, hash: K -> int, equal: (K, K) -> bool, k: K)
    requires |slots| > 0 && CountEmpty(slots) >= 1
    ensures Place(slots, hash, equal, k, |slots|).Some?
  {
    var e := OneEmpty(slots);
    PlaceFailsIffFull(slots, hash, equal, k);
  }

  /** A write fills at most one empty slot. */
  lemma InsertRoom<K>(slots: seq<Slot<K>>, j: nat, k: K)
    requires j < |slots|
    ensures CountEmpty(Insert(slots, j, k)) + 1 >= CountEmpty(slots)
  {
    if slots[j].Empty? {
      CountEmptyAt(slots, j, k);
    }
  }

  /** A subset has no more members than its superset. */
  lemma {:induction false} SubsetCard<T>(a: set<T>, b: set<T>)
    requires a <= b
    ensures |a| <= |b|
    decreases a
  {
    if a != {} {
      var x :| x in a;
      SubsetCard(a - {x}, b - {x});
    }
  }

  /** A table that has n slots, that was empty and has only had writes of distinct keys from a
      set fs of fewer than n keys (each new key filling at most one empty slot) has room for
      any key of fs: the write lands on an empty slot or on the key itself, and adds the key
      while keeping that count. */
  lemma AddRoom<K(!new)>(slots: seq<Slot<K>>, hash: K -> int, equal: (K, K) -> bool, k: K, fs: set<K>)
    requires |slots| > 0 && NoHoles(slots, hash) && Proper(hash, equal)
    requires forall a, b :: equal(a, b) <==> a == b
    requires Keys(slots) <= fs && k in fs && |fs| < |slots|
    requires CountEmpty(slots) + |Keys(slots)| >= |slots|
    ensures Place(slots, hash, equal, k, |slots|).Some?
    ensures var s' := Insert(slots, Place(slots, hash, equal, k, |slots|).value, k);
            Keys(s') == Keys(slots) + {k} && CountEmpty(s') + |Keys(s')| >= |slots|
  {
    FoundIffKey(slots, hash, equal, k);
    if k in Keys(slots) {
      var j := Find(slots, hash, equal, k).value;
      assert Insert(slots, j, k) == slots;
    } else {
      SubsetCard(Keys(slots), fs - {k});
      PlaceWhileRoom(slots, hash, equal, k);
      var j := Place(slots, hash, equal, k, |slots|).value;
      InsertKeys(slots, hash, equal, k, |slots|);
      InsertRoom(slots, j, k);
    }
  }

  // ---------------------------------------------------------------- the classes

  class HashMap<K, V> {
    const hash: K -> int
    const equal: (K, K) -> bool
    const size: nat
    const mask: nat
    const keyStore: array<Slot<K>>
    const valStore: array<V>

    ghost predicate Valid()
      reads this, keyStore
    {
      size >= 16 && IsPow2(size) && mask == size - 1 &&
      keyStore.Length == size && valStore.Length == size && keyStore as object != valStore as object &&
      NoHoles(keyStore[..], hash)
    }

    /** The table for capacity hint `hint`; every key slot starts empty and every value slot
        holds the filler `zero` (Python's 0). */
    constructor (hint: real, hash: K -> int, equal: (K, K) -> bool, zero: V)
      requires hint >= 0.0
      ensures Valid() && fresh(keyStore) && fresh(valStore)
      ensures this.hash == hash && this.equal == equal
      ensures size == TableSize(hint)
      ensures forall i :: 0 <= i < size ==> keyStore[i] == Empty
    {
      this.hash := hash;
      this.equal := equal;
      var s := TableSize(hint);
      size := s;
      keyStore := new Slot<K>[s];
      valStore := new V[s](_ => zero);
      mask := s - 1;
      new;
      var i := 0;
      while i < s
        invariant 0 <= i <= s
        invariant forall t :: 0 <= t < i ==> keyStore[t] == Empty
      {
        keyStore[i] := Empty;
        i := i + 1;
      }
    }

    /** `set`: overwrite the value of a present key or store a new one, returning the value;
        "Full HashMap" when the probe passes every slot. */
    method Set(key: K, value: V) returns (r: Result<V>)
      requires Valid()
      modifies keyStore, valStore
      ensures Valid()
      ensures var p := Place(old(keyStore[..]), hash, equal, key, size);
              if p.None? then
                r == Fail(FullHashMap) && keyStore[..] == old(keyStore[..]) && valStore[..] == old(valStore[..])
              else
                r == Ok(value) && keyStore[..] == Insert(old(keyStore[..]), p.value, key) &&
                valStore[..] == old(valStore[..])[p.value := value]
    {
      ghost var slots := keyStore[..];
      ghost var h := Home(slots, hash, key);
      var index := hash(key) % size;
      var matchKey := keyStore[index];
      var collisions := 0;
      while matchKey.Full?
        invariant 0 <= collisions < size
        invariant index == Wrap(h, collisions, size)
        invariant matchKey == keyStore[index]
        invariant forall u :: 0 <= u < collisions ==> !StopsAt(slots, equal, key, h, u)
        invariant keyStore[..] == slots && valStore[..] == old(valStore[..])
        decreases size - collisions
      {
        if equal(matchKey.key, key) {
          assert StopsAt(slots, equal, key, h, collisions);
          assert Probe(slots, equal, key, h, size, 0) == collisions;
          var v := Store(index, key, value, size);
          return Ok(v);
        }
        collisions := collisions + 1;
        if size <= collisions {
          assert Probe(slots, equal, key, h, size, 0) == size;
          return Fail(FullHashMap);
        }
        index := Next(index, size);
        matchKey := keyStore[index];
      }
      assert StopsAt(slots, equal, key, h, collisions);
      assert Probe(slots, equal, key, h, size, 0) == collisions;
      var v := Store(index, key, value, size);
      return Ok(v);
    }

    /** The writes of `set` and `maybe_set` once the probe for key has stopped at slot index:
        the key into an empty slot, the value in any case. */
    method Store(index: nat, key: K, value: V, ghost limit: nat) returns (v: V)
      requires Valid() && limit <= size
      requires Place(keyStore[..], hash, equal, key, limit) == Some(index)
      modifies keyStore, valStore
      ensures Valid() && v == value
      ensures keyStore[..] == Insert(old(keyStore[..]), index, key)
      ensures valStore[..] == old(valStore[..])[index := value]
    {
      NoHolesInsert(keyStore[..], hash, equal, key, limit);
      if keyStore[index].Empty? {
        keyStore[index] := Full(key);
      }
      valStore[index] := value;
      v := valStore[index];
    }

    /** `maybe_set`: return the stored value of a present key and change nothing, or store a new
        key and return its value. The probe count starts at 1, so it looks at one slot fewer
        than `set` before raising "Full HashMap". */
    method MaybeSet(key: K, value: V) returns (r: Result<V>)
      requires Valid()
      modifies keyStore, valStore
      ensures Valid()
      ensures MaybeSetOutcome(old(keyStore[..]), old(valStore[..]), hash, equal, key, value) ==
              if r.Ok? then Ok((r.value, keyStore[..], valStore[..])) else Fail(r.error)
      ensures r.Fail? ==> keyStore[..] == old(keyStore[..]) && valStore[..] == old(valStore[..])
    {
      ghost var slots := keyStore[..];
      ghost var h := Home(slots, hash, key);
      var index := hash(key) % size;
      var matchKey := keyStore[index];
      var collisions := 1;
      while matchKey.Full?
        invariant 1 <= collisions < size
        invariant index == Wrap(h, collisions - 1, size)
        invariant matchKey == keyStore[index]
        invariant forall u :: 0 <= u < collisions - 1 ==> !StopsAt(slots, equal, key, h, u)
        invariant keyStore[..] == slots && valStore[..] == old(valStore[..])
        decreases size - collisions
      {
        if equal(matchKey.key, key) {
          assert StopsAt(slots, equal, key, h, collisions - 1);
          assert Probe(slots, equal, key, h, size - 1, 0) == collisions - 1;
          return Ok(valStore[index]);
        }
        collisions := collisions + 1;
        if size <= collisions {
          assert Probe(slots, equal, key, h, size - 1, 0) == size - 1;
          return Fail(FullHashMap);
        }
        index := Next(index, size);
        matchKey := keyStore[index];
      }
      assert StopsAt(slots, equal, key, h, collisions - 1);
      assert Probe(slots, equal, key, h, size - 1, 0) == collisions - 1;
      var v := Store(index, key, value, size - 1);
      return Ok(v);
    }

    /** `get`: the value stored under an equal key, or `missing` when the probe meets an empty
        slot or has looked at every slot. */
    method Get(key: K, missing: V) returns (v: V)
      requires Valid()
      ensures var f := Find(keyStore[..], hash, equal, key);
              v == if f.Some? then valStore[f.value] else missing
    {
      ghost var slots := keyStore[..];
      ghost var h := Home(slots, hash, key);
      var index := hash(key) % size;
      var matchKey := keyStore[index];
      var collisions := 1;
      while matchKey.Full?
        invariant 1 <= collisions <= size
        invariant index == Wrap(h, collisions - 1, size)
        invariant matchKey == keyStore[index]
        invariant forall u :: 0 <= u < collisions - 1 ==> !StopsAt(slots, equal, key, h, u)
        decreases size - collisions
      {
        if equal(matchKey.key, key) {
          assert StopsAt(slots, equal, key, h, collisions - 1);
          assert Probe(slots, equal, key, h, size, 0) == collisions - 1;
          return valStore[index];
        }
        if size <= collisions {
          assert Probe(slots, equal, key, h, size, 0) == size;
          break;
        }
        collisions := collisions + 1;
        index := Next(index, size);
        matchKey := keyStore[index];
      }
      if matchKey.Empty? {
        assert StopsAt(slots, equal, key, h, collisions - 1);
        assert Probe(slots, equal, key, h, size, 0) == collisions - 1;
      }
      return missing;
    }
  }

  class HashSet<K> {
    const hash: K -> int
    const equal: (K, K) -> bool
    const size: nat
    const mask: nat
    const store: array<Slot<K>>

    ghost predicate Valid()
      reads this, store
    {
      size >= 16 && IsPow2(size) && mask == size - 1 && store.Length == size &&
      NoHoles(store[..], hash)
    }

    constructor (hint: real, hash: K -> int, equal: (K, K) -> bool)
      requires hint >= 0.0
      ensures Valid() && fresh(store)
      ensures this.hash == hash && this.equal == equal
      ensures size == TableSize(hint)
      ensures forall i :: 0 <= i < size ==> store[i] == Empty
    {
      this.hash := hash;
      this.equal := equal;
      var s := TableSize(hint);
      size := s;
      store := new Slot<K>[s];
      mask := s - 1;
      new;
      var i := 0;
      while i < s
        invariant 0 <= i <= s
        invariant forall t :: 0 <= t < i ==> store[t] == Empty
      {
        store[i] := Empty;
        i := i + 1;
      }
    }

    /** `add`: True once the value or an equal one is stored; "Full hashset" when the probe
        passes every slot. */
    method Add(value: K) returns (r: Result<bool>)
      requires Valid()
      modifies store
      ensures Valid()
      ensures var p := Place(old(store[..]), hash, equal, value, size);
              if p.None? then r == Fail(FullHashSet) && store[..] == old(store[..])
              else r == Ok(true) && store[..] == Insert(old(store[..]), p.value, value)
    {
      ghost var slots := store[..];
      ghost var h := Home(slots, hash, value);
      var index := hash(value) % size;
      var slot := store[index];
      var collisions := 0;
      while slot.Full?
        invariant 0 <= collisions < size
        invariant index == Wrap(h, collisions, size)
        invariant slot == store[index]
        invariant forall u :: 0 <= u < collisions ==> !StopsAt(slots, equal, value, h, u)
        invariant store[..] == slots
        decreases size - collisions
      {
        if equal(slot.key, value) {
          assert StopsAt(slots, equal, value, h, collisions);
          assert Probe(slots, equal, value, h, size, 0) == collisions;
          return Ok(true);
        }
        collisions := collisions + 1;
        if size <= collisions {
          assert Probe(slots, equal, value, h, size, 0) == size;
          return Fail(FullHashSet);
        }
        index := Next(index, size);
        slot := store[index];
      }
      assert StopsAt(slots, equal, value, h, collisions);
      assert Probe(slots, equal, value, h, size, 0) == collisions;
      NoHolesInsert(slots, hash, equal, value, size);
      store[index] := Full(value);
      return Ok(true);
    }

    /** `has`: whether the probe reaches a slot holding an equal value. */
    method Has(value: K) returns (b: bool)
      requires Valid()
      ensures b <==> Find(store[..], hash, equal, value).Some?
    {
      ghost var slots := store[..];
      ghost var h := Home(slots, hash, value);
      var index := hash(value) % size;
      var slot := store[index];
      var collisions := 0;
      while slot.Full?
        invariant 0 <= collisions < size
        invariant index == Wrap(h, collisions, size)
        invariant slot == store[index]
        invariant forall u :: 0 <= u < collisions ==> !StopsAt(slots, equal, value, h, u)
        decreases size - collisions
      {
        if equal(slot.key, value) {
          assert StopsAt(slots, equal, value, h, collisions);
          assert Probe(slots, equal, value, h, size, 0) == collisions;
          return true;
        }
        collisions := collisions + 1;
        if size <= collisions {
          assert Probe(slots, equal, value, h, size, 0) == size;
          return false;
        }
        index := Next(index, size);
        slot := store[index];
      }
      assert StopsAt(slots, equal, value, h, collisions);
      assert Probe(slots, equal, value, h, size, 0) == collisions;
      return false;
    }

    /** `values`: the stored values in slot order. */
    method Values() returns (vs: seq<K>)
      requires Valid()
      ensures vs == FullKeys(store[..])
    {
      vs := [];
      var n := store.Length;
      var i := 0;
      while i < n
        invariant 0 <= i <= n
        invariant vs == FullKeys(store[..i])
      {
        assert store[..i + 1][..i] == store[..i];
        var slot := store[i];
        if slot.Full? {
          vs := vs + [slot.key];
        }
        i := i + 1;
      }
      assert store[..n] == store[..];
    }
  }
}
