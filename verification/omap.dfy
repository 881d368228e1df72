/**
 Insertion-ordered maps from strings to values: the model of a JavaScript plain
 object. Assigning to an existing property keeps its position and replaces its
 value; assigning to a new property appends it; `delete` drops it.
 */
module OrderedMaps {
  import opened Wrappers

  type OMap<V> = seq<(string, V)>

  /** The keys in insertion order (`Object.keys`). */
  function Keys<V>(m: OMap<V>): (ks: seq<string>)
    ensures |ks| == |m|
    ensures forall i :: 0 <= i < |m| ==> ks[i] == m[i].0
  {
    if m == [] then [] else [m[0].0] + Keys(m[1..])
  }

  /** No key occurs twice, as in every JavaScript object. */
  predicate Distinct<V>(m: OMap<V>)
  {
    m == [] || (m[0].0 !in Keys(m[1..]) && Distinct(m[1..]))
  }

  /** Property read: the value stored under `k`, if any. */
  function Get<V>(m: OMap<V>, k: string): (r: Option<V>)
    ensures r.None? <==> k !in Keys(m)
    ensures r.Some? ==> (k, r.value) in m
  {
    if m == [] then None
    else if m[0].0 == k then Some(m[0].1)
    else Get(m[1..], k)
  }

  /** Property assignment `m[k] = v`. */
  function Put<V>(m: OMap<V>, k: string, v: V): (r: OMap<V>)
    ensures forall k' :: k' in Keys(r) <==> k' in Keys(m) || k' == k
    ensures forall k' :: Get(r, k') == if k' == k then Some(v) else Get(m, k')
    ensures Distinct(m) ==> Distinct(r)
  {
    if m == [] then [(k, v)]
    else if m[0].0 == k then [(k, v)] + m[1..]
    else [m[0]] + Put(m[1..], k, v)
  }

  /** Property deletion `delete m[k]`. */
  function Remove<V>(m: OMap<V>, k: string): (r: OMap<V>)
    ensures k !in Keys(r)
    ensures forall k' :: k' != k ==> Get(r, k') == Get(m, k')
    ensures forall k' :: k' in Keys(r) <==> k' in Keys(m) && k' != k
    ensures Distinct(m) ==> Distinct(r)
  {
    if m == [] then []
    else if m[0].0 == k then Remove(m[1..], k)
    else [m[0]] + Remove(m[1..], k)
  }

  /** Assigns the pairs of `s` one after the other (`forEach` of assignments,
      and `Object.assign` when `s` is itself an object). */
  function PutAll<V>(m: OMap<V>, s: seq<(string, V)>): OMap<V>
  {
    if s == [] then m
    else Put(PutAll(m, s[..|s| - 1]), s[|s| - 1].0, s[|s| - 1].1)
  }

  /** The object built by assigning the pairs of `s` to `{}`. */
  function FromPairs<V>(s: seq<(string, V)>): OMap<V>
  {
    PutAll([], s)
  }

  /** The value of the LAST pair of `s` with key `k`: the one that survives
      a sequence of assignments. */
  function Last<V>(s: seq<(string, V)>, k: string): (r: Option<V>)
    ensures r.Some? ==> (k, r.value) in s
    ensures r.None? <==> forall i :: 0 <= i < |s| ==> s[i].0 != k
  {
    if s == [] then None
    else if s[|s| - 1].0 == k then Some(s[|s| - 1].1)
    else Last(s[..|s| - 1], k)
  }

  /** Reading after a series of assignments gives the last assigned value,
      or the old value when the key was never assigned. */
  lemma {:induction false} GetPutAll<V>(m: OMap<V>, s: seq<(string, V)>, k: string)
    ensures Get(PutAll(m, s), k) == if Last(s, k).Some? then Last(s, k) else Get(m, k)
    decreases |s|
  {
    if s != [] {
      GetPutAll(m, s[..|s| - 1], k);
    }
  }

  /** A series of assignments only ever adds keys, and keeps the map free of
      duplicate keys. */
  lemma {:induction false} PutAllKeys<V>(m: OMap<V>, s: seq<(string, V)>)
    ensures forall k :: k in Keys(m) ==> k in Keys(PutAll(m, s))
    ensures forall i :: 0 <= i < |s| ==> s[i].0 in Keys(PutAll(m, s))
    ensures Distinct(m) ==> Distinct(PutAll(m, s))
    decreases |s|
  {
    if s != [] {
      var s' := s[..|s| - 1];
      PutAllKeys(m, s');
      forall i | 0 <= i < |s|
        ensures s[i].0 in Keys(PutAll(m, s))
      {
        if i < |s| - 1 {
          assert s[i] == s'[i];
        }
      }
    }
  }

  lemma {:induction false} DistinctFromPairs<V>(s: seq<(string, V)>)
    ensures Distinct(FromPairs(s))
  {
    PutAllKeys([], s);
  }

  /** Assigning pairs one after the other distributes over concatenation. */
  lemma {:induction false} PutAllConcat<V>(m: OMap<V>, a: seq<(string, V)>, b: seq<(string, V)>)
    ensures PutAll(m, a + b) == PutAll(PutAll(m, a), b)
    decreases |b|
  {
    if b == [] {
      assert a + b == a;
    } else {
      var b' := b[..|b| - 1];
      assert (a + b)[..|a + b| - 1] == a + b';
      assert (a + b)[|a + b| - 1] == b[|b| - 1];
      PutAllConcat(m, a, b');
    }
  }

  /** A second assignment to the same key overrides the first. */
  lemma {:induction false} PutPut<V>(m: OMap<V>, k: string, v0: V, v: V)
    ensures Put(Put(m, k, v0), k, v) == Put(m, k, v)
  {
    if m != [] && m[0].0 != k {
      PutPut(m[1..], k, v0, v);
      assert Put(m, k, v0)[1..] == Put(m[1..], k, v0);
    }
  }

  /** Assignments to two different keys commute when the first key already
      exists, since it is then updated in place. */
  lemma {:induction false} PutCommute<V>(m: OMap<V>, k: string, v: V, k2: string, v2: V)
    requires k in Keys(m)
    requires k != k2
    ensures Put(Put(m, k, v), k2, v2) == Put(Put(m, k2, v2), k, v)
  {
    if m[0].0 == k {
    } else if m[0].0 == k2 {
    } else {
      PutCommute(m[1..], k, v, k2, v2);
      assert Put(m, k, v)[1..] == Put(m[1..], k, v);
      assert Put(m, k2, v2)[1..] == Put(m[1..], k2, v2);
    }
  }

  /** An in-place update of an existing key can be moved past assignments to
      other keys. */
  lemma {:induction false} PutPastPutAll<V>(m: OMap<V>, k: string, v: V, s: seq<(string, V)>)
    requires k in Keys(m)
    requires forall i :: 0 <= i < |s| ==> s[i].0 != k
    ensures PutAll(Put(m, k, v), s) == Put(PutAll(m, s), k, v)
    decreases |s|
  {
    if s != [] {
      var s' := s[..|s| - 1];
      var (k2, v2) := s[|s| - 1];
      PutPastPutAll(m, k, v, s');
      PutAllKeys(m, s');
      PutCommute(PutAll(m, s'), k, v, k2, v2);
    }
  }

  /** Put on a duplicate-free map rewrites exactly the slot of the key. */
  lemma {:induction false} PutAt<V>(m: OMap<V>, i: nat, v: V)
    requires i < |m|
    requires forall j :: 0 <= j < i ==> m[j].0 != m[i].0
    ensures Put(m, m[i].0, v) == m[..i] + [(m[i].0, v)] + m[i + 1..]
  {
    var k := m[i].0;
    if i > 0 {
      var t := m[1..];
      assert t[i - 1] == m[i];
      PutAt(t, i - 1, v);
      assert Put(m, k, v) == [m[0]] + Put(t, k, v);
      assert t[..i - 1] == m[1..i];
      assert t[i..] == m[i + 1..];
      assert m[..i] == [m[0]] + m[1..i];
    }
  }

  lemma {:induction false} DistinctAt<V>(m: OMap<V>, i: nat, j: nat)
    requires Distinct(m)
    requires i < j < |m|
    ensures m[i].0 != m[j].0
  {
    if i == 0 {
      assert Keys(m[1..])[j - 1] == m[j].0;
    } else {
      DistinctAt(m[1..], i - 1, j - 1);
    }
  }

  /** Assigning the entries of a duplicate-free map after updating one of
      them equals updating after assigning. */
  lemma {:induction false} PutAllPut<V>(m: OMap<V>, n: OMap<V>, k: string, v: V)
    requires Distinct(n)
    ensures PutAll(m, Put(n, k, v)) == Put(PutAll(m, n), k, v)
  {
    if k !in Keys(n) {
      PutAbsent(n, k, v);
      assert (n + [(k, v)])[..|n|] == n;
    } else {
      var i :| 0 <= i < |n| && n[i].0 == k;
      PutAllPutAt(m, n, i, v);
    }
  }

  lemma {:induction false} PutAllPutAt<V>(m: OMap<V>, n: OMap<V>, i: nat, v: V)
    requires Distinct(n)
    requires i < |n|
    ensures PutAll(m, Put(n, n[i].0, v)) == Put(PutAll(m, n), n[i].0, v)
  {
    var (k, v0) := n[i];
    var n1, n2 := n[..i], n[i + 1..];
    DistinctAround(n, i);
    assert forall j :: 0 <= j < |n2| ==> n2[j] == n[i + 1 + j];
    PutAt(n, i, v);
    SplitAt(n, i);
    PutAllReplace(m, n1, k, v0, v, n2);
  }

  /** In a duplicate-free map no other pair shares the key of the pair at
      `i`. */
  lemma DistinctAround<V>(n: OMap<V>, i: nat)
    requires Distinct(n) && i < |n|
    ensures forall j :: 0 <= j < i ==> n[j].0 != n[i].0
    ensures forall j :: i < j < |n| ==> n[j].0 != n[i].0
  {
    forall j | 0 <= j < i
      ensures n[j].0 != n[i].0
    {
      DistinctAt(n, j, i);
    }
    forall j | i < j < |n|
      ensures n[j].0 != n[i].0
    {
      DistinctAt(n, i, j);
    }
  }

  lemma SplitAt<V>(n: seq<V>, i: nat)
    requires i < |n|
    ensures n == n[..i] + [n[i]] + n[i + 1..]
  {
  }

  /** Replacing the value of one pair whose key the later pairs do not use
      is the same as assigning the new value at the end. */
  lemma {:induction false} PutAllReplace<V>(m: OMap<V>, n1: seq<(string, V)>, k: string, v0: V, v: V,
                                            n2: seq<(string, V)>)
    requires forall j :: 0 <= j < |n2| ==> n2[j].0 != k
    ensures PutAll(m, n1 + [(k, v)] + n2) == Put(PutAll(m, n1 + [(k, v0)] + n2), k, v)
  {
    var a := PutAll(m, n1);
    PutAllSnoc(m, n1, k, v);
    PutAllSnoc(m, n1, k, v0);
    PutAllConcat(m, n1 + [(k, v)], n2);
    PutAllConcat(m, n1 + [(k, v0)], n2);
    PutPut(a, k, v0, v);
    PutPastPutAll(Put(a, k, v0), k, v, n2);
  }

  /** Assigning, for each key of `ks` in order, the value `f` gives it,
      skipping the keys it gives none. */
  function PutWhere<V>(ks: seq<string>, f: string -> Option<V>): OMap<V>
  {
    if ks == [] then []
    else
      var k := ks[|ks| - 1];
      if f(k).Some? then Put(PutWhere(ks[..|ks| - 1], f), k, f(k).value) else PutWhere(ks[..|ks| - 1], f)
  }

  /** Reading after `PutWhere` gives `f`'s value for the keys of `ks` and
      nothing for the others; no key is assigned twice. */
  lemma {:induction false} PutWhereGet<V>(ks: seq<string>, f: string -> Option<V>, k: string)
    ensures Get(PutWhere(ks, f), k) == if k in ks then f(k) else None
    ensures Distinct(PutWhere(ks, f))
  {
    if ks != [] {
      var init, k' := ks[..|ks| - 1], ks[|ks| - 1];
      PutWhereGet(init, f, k);
      assert ks == init + [k'];
    }
  }

  /** Deleting, for each key of `ks` in order, the entry `drop` picks out. */
  function RemoveWhere<V>(m: OMap<V>, ks: seq<string>, drop: (string, V) -> bool): OMap<V>
  {
    if ks == [] then m
    else
      var k := ks[|ks| - 1];
      var prev := RemoveWhere(m, ks[..|ks| - 1], drop);
      if Get(prev, k).Some? && drop(k, Get(prev, k).value) then Remove(prev, k) else prev
  }

  /** `RemoveWhere` deletes exactly the entries of keys in `ks` that `drop`
      picks out. */
  lemma {:induction false} RemoveWhereGet<V>(m: OMap<V>, ks: seq<string>, drop: (string, V) -> bool, k: string)
    ensures Get(RemoveWhere(m, ks, drop), k)
            == if k in ks && Get(m, k).Some? && drop(k, Get(m, k).value) then None else Get(m, k)
  {
    if ks != [] {
      var init, k' := ks[..|ks| - 1], ks[|ks| - 1];
      var prev := RemoveWhere(m, init, drop);
      RemoveWhereGet(m, init, drop, k);
      assert k in ks <==> k in init || k == k' by {
        assert ks == init + [k'];
      }
      RemoveStep(prev, RemoveWhere(m, ks, drop), k', Get(prev, k').Some? && drop(k', Get(prev, k').value), k);
      if k == k' && !(k in init && Get(m, k).Some? && drop(k, Get(m, k).value)) {
        assert Get(prev, k) == Get(m, k);
      }
    }
  }

  lemma RemoveStep<V>(prev: OMap<V>, next: OMap<V>, k': string, b: bool, k: string)
    requires next == if b then Remove(prev, k') else prev
    ensures Get(next, k) == if b && k == k' then None else Get(prev, k)
  {
  }

  /** `RemoveWhere` adds no key and keeps a map free of duplicate keys. */
  lemma {:induction false} RemoveWhereKeys<V>(m: OMap<V>, ks: seq<string>, drop: (string, V) -> bool)
    ensures forall k :: k in Keys(RemoveWhere(m, ks, drop)) ==> k in Keys(m)
    ensures Distinct(m) ==> Distinct(RemoveWhere(m, ks, drop))
  {
    if ks != [] {
      RemoveWhereKeys(m, ks[..|ks| - 1], drop);
    }
  }

  /** The pairs of a sequence of optional pairs that are present, in order. */
  function Present<V>(ps: seq<Option<(string, V)>>): seq<(string, V)>
  {
    if ps == [] then []
    else if ps[|ps| - 1].Some? then Present(ps[..|ps| - 1]) + [ps[|ps| - 1].value]
    else Present(ps[..|ps| - 1])
  }

  /** Assigning, in order, the pairs that are present. */
  function PutPresent<V>(m: OMap<V>, ps: seq<Option<(string, V)>>): OMap<V>
  {
    if ps == [] then m
    else if ps[|ps| - 1].Some? then Put(PutPresent(m, ps[..|ps| - 1]), ps[|ps| - 1].value.0, ps[|ps| - 1].value.1)
    else PutPresent(m, ps[..|ps| - 1])
  }

  /** Skipping the absent pairs while assigning is assigning the present
      ones. */
  lemma {:induction false} PutPresentIsPutAll<V>(m: OMap<V>, ps: seq<Option<(string, V)>>)
    ensures PutPresent(m, ps) == PutAll(m, Present(ps))
  {
    if ps != [] {
      var init, p := ps[..|ps| - 1], ps[|ps| - 1];
      PutPresentIsPutAll(m, init);
      if p.Some? {
        PutAllSnoc(m, Present(init), p.value.0, p.value.1);
      }
    }
  }

  /** Every present pair comes from some position of the sequence. */
  lemma {:induction false} PresentFrom<V>(ps: seq<Option<(string, V)>>, a: (string, V))
    requires a in Present(ps)
    ensures exists i :: 0 <= i < |ps| && ps[i] == Some(a)
  {
    var init, p := ps[..|ps| - 1], ps[|ps| - 1];
    if a in Present(init) {
      PresentFrom(init, a);
      var i :| 0 <= i < |init| && init[i] == Some(a);
      assert ps[i] == init[i];
    } else {
      assert ps[|ps| - 1] == Some(a);
    }
  }

  lemma PutAllSnoc<V>(m: OMap<V>, s: seq<(string, V)>, k: string, v: V)
    ensures PutAll(m, s + [(k, v)]) == Put(PutAll(m, s), k, v)
  {
    assert (s + [(k, v)])[..|s|] == s;
  }

  lemma {:induction false} PutAbsent<V>(m: OMap<V>, k: string, v: V)
    requires k !in Keys(m)
    ensures Put(m, k, v) == m + [(k, v)]
  {
    if m != [] {
      PutAbsent(m[1..], k, v);
    }
  }

  /** `Object.assign(m, FromPairs(s))` is the same as assigning the pairs of
      `s` to `m` directly: building an intermediate object first changes
      neither the values nor the key order. */
  lemma {:induction false} PutAllFromPairs<V>(m: OMap<V>, s: seq<(string, V)>)
    ensures PutAll(m, FromPairs(s)) == PutAll(m, s)
    decreases |s|
  {
    if s != [] {
      var s' := s[..|s| - 1];
      var (k, v) := s[|s| - 1];
      PutAllFromPairs(m, s');
      DistinctFromPairs(s');
      PutAllPut(m, FromPairs(s'), k, v);
    }
  }

  /** In a duplicate-free map, reading the key of slot `i` gives its value. */
  lemma {:induction false} DistinctGet<V>(m: OMap<V>, i: nat)
    requires Distinct(m) && i < |m|
    ensures Get(m, m[i].0) == Some(m[i].1)
  {
    if i > 0 {
      assert m[0].0 != m[i].0 by {
        DistinctAt(m, 0, i);
      }
      assert Distinct(m[1..]);
      DistinctGet(m[1..], i - 1);
    }
  }

  /** Assigning the pairs of a duplicate-free list to `{}` rebuilds it. */
  lemma {:induction false} FromPairsDistinct<V>(s: seq<(string, V)>)
    requires Distinct(s)
    ensures FromPairs(s) == s
    decreases |s|
  {
    if s != [] {
      var s', k, v := s[..|s| - 1], s[|s| - 1].0, s[|s| - 1].1;
      DistinctPrefix(s);
      FromPairsDistinct(s');
      DistinctLastKey(s, s');
      PutAllAbsentSnoc(s', k, v);
      SplitAt(s, |s| - 1);
    }
  }

  /** The last key of a duplicate-free map occurs nowhere before it. */
  lemma DistinctLastKey<V>(s: seq<(string, V)>, s': seq<(string, V)>)
    requires Distinct(s) && s != [] && s' == s[..|s| - 1]
    ensures forall j :: 0 <= j < |s'| ==> s'[j].0 != s[|s| - 1].0
  {
    DistinctAround(s, |s| - 1);
  }

  /** Assigning a new key to a map built in place appends it. */
  lemma PutAllAbsentSnoc<V>(s: seq<(string, V)>, k: string, v: V)
    requires PutAll([], s) == s
    requires forall j :: 0 <= j < |s| ==> s[j].0 != k
    ensures PutAll([], s + [(k, v)]) == s + [(k, v)]
  {
    PutAllSnoc([], s, k, v);
    PutAbsent(s, k, v);
  }

  lemma {:induction false} DistinctPrefix<V>(s: seq<(string, V)>)
    requires Distinct(s) && s != []
    ensures Distinct(s[..|s| - 1])
    decreases |s|
  {
    if |s| > 1 {
      var t := s[..|s| - 1];
      assert t[1..] == s[1..][..|s| - 2];
      DistinctPrefix(s[1..]);
      assert Keys(t[1..]) == Keys(s[1..])[..|s| - 2];
    }
  }

  /** Two lists with the same keys position by position are duplicate-free
      together. */
  lemma {:induction false} DistinctKeys<U, V>(a: seq<(string, U)>, b: seq<(string, V)>)
    requires |a| == |b| && forall i :: 0 <= i < |a| ==> a[i].0 == b[i].0
    requires Distinct(b)
    ensures Distinct(a)
  {
    if a != [] {
      assert Keys(a[1..]) == Keys(b[1..]);
      DistinctKeys(a[1..], b[1..]);
    }
  }

  /** In a duplicate-free map the last pair with a key is its only pair. */
  lemma DistinctLast<V>(s: seq<(string, V)>, k: string)
    requires Distinct(s)
    ensures Last(s, k) == Get(s, k)
  {
    FromPairsDistinct(s);
    GetPutAll([], s, k);
  }
}
