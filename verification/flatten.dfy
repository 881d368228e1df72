/**
 `flattenObject`: a nested JSON object becomes a flat object whose keys are
 dotted paths. The fold over an object's keys is modelled as it is written,
 assignment by assignment, and compared with a declarative reference: the
 object built from the depth-first list of leaves.
 */
module Flattening {
  import opened Wrappers
  import opened OrderedMaps
  import opened Values

  /** `prefix ? `${prefix}.${key}` : key`. */
  function FullKey(prefix: string, key: string): (r: string)
    ensures prefix == "" ==> r == key
    ensures prefix != "" ==> |r| == |prefix| + 1 + |key| && r[..|prefix|] == prefix && r[|prefix|] == '.'
    ensures prefix != "" ==> r[|prefix| + 1..] == key
  {
    if prefix == "" then key else prefix + "." + key
  }

  /** The nested objects are recursed into; anything else, arrays included,
      is a leaf. */
  predicate IsLeaf(j: Json)
  {
    !j.JObj?
  }

  /** The flat object after the `forEach` callback has run for the first `n`
      keys of `o`. */
  function FlattenFrom(o: Json, prefix: string, n: nat): OMap<Json>
    requires o.JObj? && n <= |o.members|
    decreases o, 0, n
  {
    if n == 0 then []
    else
      var acc := FlattenFrom(o, prefix, n - 1);
      var full := FullKey(prefix, o.members[n - 1].0);
      var v := o.members[n - 1].1;
      if v.JObj? then PutAll(acc, Flatten(v, full))
      else Put(acc, full, v)
  }

  /** `flattenObject(o, prefix)`. */
  function Flatten(o: Json, prefix: string): OMap<Json>
    requires o.JObj?
    decreases o, 1, 0
  {
    FlattenFrom(o, prefix, |o.members|)
  }

  /** The leaves below the first `n` keys of `o`, depth first, each paired
      with its dotted path. */
  function LeavesFrom(o: Json, prefix: string, n: nat): (r: seq<(string, Json)>)
    requires o.JObj? && n <= |o.members|
    ensures forall i :: 0 <= i < |r| ==> IsLeaf(r[i].1)
    decreases o, 0, n
  {
    if n == 0 then []
    else
      var full := FullKey(prefix, o.members[n - 1].0);
      var v := o.members[n - 1].1;
      LeavesFrom(o, prefix, n - 1) + (if v.JObj? then Leaves(v, full) else [(full, v)])
  }

  /** All leaves of `o` with their dotted paths, in document order. */
  function Leaves(o: Json, prefix: string): (r: seq<(string, Json)>)
    requires o.JObj?
    ensures forall i :: 0 <= i < |r| ==> IsLeaf(r[i].1)
    decreases o, 1, 0
  {
    LeavesFrom(o, prefix, |o.members|)
  }

  /** The fold builds exactly the object obtained by assigning the leaves in
      document order: key order is the order in which each path first
      occurs, and a path reached twice keeps the value of its last leaf. */
  lemma {:induction false} FlattenFromIsLeaves(o: Json, prefix: string, n: nat)
    requires o.JObj? && n <= |o.members|
    ensures FlattenFrom(o, prefix, n) == FromPairs(LeavesFrom(o, prefix, n))
    decreases o, 0, n
  {
    if n > 0 {
      var full := FullKey(prefix, o.members[n - 1].0);
      var v := o.members[n - 1].1;
      var before := LeavesFrom(o, prefix, n - 1);
      FlattenFromIsLeaves(o, prefix, n - 1);
      if v.JObj? {
        FlattenIsLeaves(v, full);
        PutAllFromPairs(FromPairs(before), Leaves(v, full));
        PutAllConcat([], before, Leaves(v, full));
      } else {
        PutAllSnoc([], before, full, v);
      }
    }
  }

  lemma {:induction false} FlattenIsLeaves(o: Json, prefix: string)
    requires o.JObj?
    ensures Flatten(o, prefix) == FromPairs(Leaves(o, prefix))
    decreases o, 1, 0
  {
    FlattenFromIsLeaves(o, prefix, |o.members|);
  }

  /** The flattened object has no duplicate keys, holds no nested object,
      and a dotted path reads the value of the last leaf reached under it. */
  lemma FlattenLookup(o: Json, prefix: string, k: string)
    requires o.JObj?
    ensures Distinct(Flatten(o, prefix))
    ensures forall i :: 0 <= i < |Flatten(o, prefix)| ==> IsLeaf(Flatten(o, prefix)[i].1)
    ensures Get(Flatten(o, prefix), k) == Last(Leaves(o, prefix), k)
  {
    var ls := Leaves(o, prefix);
    FlattenIsLeaves(o, prefix);
    DistinctFromPairs(ls);
    GetPutAll([], ls, k);
    forall i | 0 <= i < |Flatten(o, prefix)|
      ensures IsLeaf(Flatten(o, prefix)[i].1)
    {
      var (k', v) := Flatten(o, prefix)[i];
      GetPutAll([], ls, k');
      DistinctGet(Flatten(o, prefix), i);
    }
  }

  /** On an object with no nested object its leaves are its own members. */
  lemma {:induction false} LeavesOfFlat(o: Json, n: nat)
    requires o.JObj? && n <= |o.members|
    requires forall i :: 0 <= i < |o.members| ==> IsLeaf(o.members[i].1)
    ensures LeavesFrom(o, "", n) == o.members[..n]
  {
    if n > 0 {
      LeavesOfFlat(o, n - 1);
      assert o.members[..n] == o.members[..n - 1] + [o.members[n - 1]];
    }
  }

  /** An object that is already flat is its own flattening, and flattening
      is idempotent. */
  lemma FlattenFlat(o: Json)
    requires o.JObj? && Distinct(o.members)
    requires forall i :: 0 <= i < |o.members| ==> IsLeaf(o.members[i].1)
    ensures Flatten(o, "") == o.members
  {
    LeavesOfFlat(o, |o.members|);
    assert o.members[..|o.members|] == o.members;
    FlattenIsLeaves(o, "");
    FromPairsDistinct(o.members);
  }

  lemma FlattenIdempotent(o: Json, prefix: string)
    requires o.JObj?
    ensures Flatten(JObj(Flatten(o, prefix)), "") == Flatten(o, prefix)
  {
    FlattenLookup(o, prefix, "");
    FlattenFlat(JObj(Flatten(o, prefix)));
  }
}
