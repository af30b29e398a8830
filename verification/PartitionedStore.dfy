/** `PartitionedVectorIndex` as an object over its partitions, each of them a vector index
    with its own id and label maps. It refines the partition map that the cache is modelled
    with: there a partition is just the vectors of its ids. */
module PartitionedStore {
  import opened Maps
  import opened PartitionedIndex
  import VectorIndex

  type Parts = map<Key, VectorIndex.Index>

  /** Every partition is a valid index of one dimension and capacity. */
  ghost predicate AllValid(p: Parts, dim: nat, maxElements: nat) {
    forall key <- p :: ValidPart(p[key], dim, maxElements)
  }

  ghost predicate ValidPart(ix: VectorIndex.Index, dim: nat, maxElements: nat) {
    VectorIndex.Valid(ix) && ix.dim == dim && ix.maxElements == maxElements
  }

  ghost function ViewOf(p: Parts): Partitions {
    map key <- p :: VectorIndex.Vectors(p[key])
  }

  lemma ViewUpdated(p: Parts, key: Key, ix: VectorIndex.Index)
    ensures ViewOf(p[key := ix]) == ViewOf(p)[key := VectorIndex.Vectors(ix)]
  {
  }

  lemma ValidUpdated(p: Parts, key: Key, ix: VectorIndex.Index, dim: nat, maxElements: nat)
    ensures AllValid(p, dim, maxElements) && ValidPart(ix, dim, maxElements) ==> AllValid(p[key := ix], dim, maxElements)
  {
  }

  lemma InsertedView(before: Partitions, maxPartitions: nat, key: Key, id: Id, vec: Vec, ok: bool, after: Partitions)
    requires var target := InsertTarget(before.Keys, maxPartitions, key);
             var part := if target in before then before[target] else map[];
             after == before[target := if ok && id !in part then part[id := vec] else part]
    ensures after == Insert(before, maxPartitions, key, id, vec, ok)
  {
  }

  lemma SizeIsKeys(p: Parts)
    ensures |p| == |p.Keys| && ViewOf(p).Keys == p.Keys
  {
  }

  lemma EmptyIsValid(dim: nat, maxElements: nat)
    ensures ValidPart(VectorIndex.Empty(dim, maxElements), dim, maxElements)
    ensures VectorIndex.Vectors(VectorIndex.Empty(dim, maxElements)) == map[]
  {
  }

  // ---------------------------------------------------------------- inserting and removing

  /** Dimension and capacity of every partition. */
  datatype Geometry = Geometry(dim: nat, capacity: nat)

  function PartAt(geo: Geometry, p: Parts, target: Key): VectorIndex.Index {
    if target in p then p[target] else VectorIndex.Empty(geo.dim, geo.capacity)
  }

  function InsertInto(geo: Geometry, p: Parts, maxPartitions: nat, key: Key, id: Id, vec: Vec): (Parts, bool) {
    var target := InsertTarget(p.Keys, maxPartitions, key);
    var (after, ok) := VectorIndex.Insert(PartAt(geo, p, target), id, vec);
    (p[target := after], ok)
  }

  function RemoveFrom(p: Parts, maxPartitions: nat, key: Key, id: Id): (Parts, bool) {
    var resolved := ResolveKey(p.Keys, maxPartitions, key);
    if resolved !in p then (p, false)
    else
      var (after, ok) := VectorIndex.Remove(p[resolved], id);
      (p[resolved := after], ok)
  }

  lemma PartIsValid(geo: Geometry, p: Parts, target: Key)
    requires AllValid(p, geo.dim, geo.capacity)
    ensures ValidPart(PartAt(geo, p, target), geo.dim, geo.capacity)
    ensures VectorIndex.Vectors(PartAt(geo, p, target)) == if target in p then ViewOf(p)[target] else map[]
  {
    EmptyIsValid(geo.dim, geo.capacity);
  }

  /** The update that an insert makes, given what the partition makes of it. */
  lemma PartReplaced(geo: Geometry, p: Parts, maxPartitions: nat, key: Key, id: Id, vec: Vec,
                     after: VectorIndex.Index, ok: bool)
    requires AllValid(p, geo.dim, geo.capacity) && ValidPart(after, geo.dim, geo.capacity)
    requires var part := VectorIndex.Vectors(PartAt(geo, p, InsertTarget(p.Keys, maxPartitions, key)));
             VectorIndex.Vectors(after) == if ok && id !in part then part[id := vec] else part
    ensures var q := p[InsertTarget(p.Keys, maxPartitions, key) := after];
            AllValid(q, geo.dim, geo.capacity) && ViewOf(q) == Insert(ViewOf(p), maxPartitions, key, id, vec, ok)
  {
    var target := InsertTarget(p.Keys, maxPartitions, key);
    SizeIsKeys(p);
    PartIsValid(geo, p, target);
    ViewUpdated(p, target, after);
    ValidUpdated(p, target, after, geo.dim, geo.capacity);
    InsertedView(ViewOf(p), maxPartitions, key, id, vec, ok, ViewOf(p[target := after]));
  }

  /** An insert does to the visible vectors what the partition map says, and is accepted
      exactly when the dimension is right and the id is there already or a slot is left. */
  lemma InsertIntoIs(geo: Geometry, p: Parts, maxPartitions: nat, key: Key, id: Id, vec: Vec)
    requires AllValid(p, geo.dim, geo.capacity)
    ensures var (q, ok) := InsertInto(geo, p, maxPartitions, key, id, vec);
            var part := PartAt(geo, p, InsertTarget(p.Keys, maxPartitions, key));
            && AllValid(q, geo.dim, geo.capacity)
            && ViewOf(q) == Insert(ViewOf(p), maxPartitions, key, id, vec, ok)
            && (ok <==> |vec| == geo.dim && (id in VectorIndex.Vectors(part) || VectorIndex.ElementCount(part) < geo.capacity))
  {
    var part := PartAt(geo, p, InsertTarget(p.Keys, maxPartitions, key));
    PartIsValid(geo, p, InsertTarget(p.Keys, maxPartitions, key));
    VectorIndex.InsertKeeps(part, id, vec);
    var (after, ok) := VectorIndex.Insert(part, id, vec);
    PartReplaced(geo, p, maxPartitions, key, id, vec, after, ok);
  }

  lemma InsertIntoKeys(geo: Geometry, p: Parts, maxPartitions: nat, key: Key, id: Id, vec: Vec)
    ensures InsertInto(geo, p, maxPartitions, key, id, vec).0.Keys == p.Keys + {InsertTarget(p.Keys, maxPartitions, key)}
  {
  }

  lemma PartShrunk(geo: Geometry, p: Parts, maxPartitions: nat, key: Key, id: Id, after: VectorIndex.Index)
    requires AllValid(p, geo.dim, geo.capacity) && ValidPart(after, geo.dim, geo.capacity)
    requires ResolveKey(p.Keys, maxPartitions, key) in p
    requires VectorIndex.Vectors(after) == VectorIndex.Vectors(p[ResolveKey(p.Keys, maxPartitions, key)]) - {id}
    ensures var q := p[ResolveKey(p.Keys, maxPartitions, key) := after];
            && AllValid(q, geo.dim, geo.capacity) && q.Keys == p.Keys
            && ViewOf(q) == Remove(ViewOf(p), maxPartitions, key, id)
  {
    var resolved := ResolveKey(p.Keys, maxPartitions, key);
    SizeIsKeys(p);
    ViewUpdated(p, resolved, after);
    ValidUpdated(p, resolved, after, geo.dim, geo.capacity);
  }

  lemma RemoveFromIs(geo: Geometry, p: Parts, maxPartitions: nat, key: Key, id: Id)
    requires AllValid(p, geo.dim, geo.capacity)
    ensures var (q, ok) := RemoveFrom(p, maxPartitions, key, id);
            && AllValid(q, geo.dim, geo.capacity)
            && q.Keys == p.Keys
            && ViewOf(q) == Remove(ViewOf(p), maxPartitions, key, id)
            && (ok <==> id in Lookup(ViewOf(p), maxPartitions, key))
  {
    var resolved := ResolveKey(p.Keys, maxPartitions, key);
    SizeIsKeys(p);
    if resolved in p {
      VectorIndex.RemoveKeeps(p[resolved], id);
      PartShrunk(geo, p, maxPartitions, key, id, VectorIndex.Remove(p[resolved], id).0);
    }
  }

  // ---------------------------------------------------------------- full partitions

  /** A partition that has used all its slots. */
  predicate Full(geo: Geometry, p: Parts, key: Key) {
    key in p && VectorIndex.ElementCount(p[key]) == geo.capacity
  }

  lemma InsertKeepsFull(geo: Geometry, p: Parts, maxPartitions: nat, key: Key, id: Id, vec: Vec, full: Key)
    requires AllValid(p, geo.dim, geo.capacity) && Full(geo, p, full)
    ensures Full(geo, InsertInto(geo, p, maxPartitions, key, id, vec).0, full)
  {
    assert ValidPart(p[full], geo.dim, geo.capacity);
    VectorIndex.InsertStaysValid(p[full], id, vec);
  }

  lemma RemoveKeepsFull(geo: Geometry, p: Parts, maxPartitions: nat, key: Key, id: Id, full: Key)
    requires AllValid(p, geo.dim, geo.capacity) && Full(geo, p, full)
    ensures Full(geo, RemoveFrom(p, maxPartitions, key, id).0, full)
  {
    assert ValidPart(p[full], geo.dim, geo.capacity);
    VectorIndex.RemoveStaysValid(p[full], id);
  }

  class PartitionedVectorIndex {
    const dim: nat
    const maxElements: nat
    const maxPartitions: nat
    var partitions: Parts

    function Shape(): Geometry {
      Geometry(dim, maxElements)
    }

    ghost predicate Valid()
      reads this
    {
      AllValid(partitions, dim, maxElements)
    }

    ghost function View(): Partitions
      reads this
    {
      ViewOf(partitions)
    }

    constructor (dim: nat, maxElements: nat, maxPartitions: nat)
      ensures Valid() && View() == map[] && this.maxPartitions == maxPartitions
    {
      this.dim, this.maxElements, this.maxPartitions := dim, maxElements, maxPartitions;
      partitions := map[];
    }

    function Resolved(key: Key): Key
      reads this
    {
      if key in partitions then key
      else if |partitions| >= maxPartitions && key != "" && key != OVERFLOW then OVERFLOW
      else key
    }

    lemma ResolvedIs(key: Key)
      ensures Resolved(key) == ResolveKey(partitions.Keys, maxPartitions, key)
    {
      SizeIsKeys(partitions);
    }

    /** Finds the partition for an insert, creating an empty one when there is none. */
    method GetOrCreate(key: Key) returns (resolved: Key)
      modifies this
      ensures resolved == InsertTarget(old(partitions.Keys), maxPartitions, key)
      ensures partitions == old(partitions)[resolved := PartAt(Shape(), old(partitions), resolved)]
    {
      SizeIsKeys(partitions);
      ResolvedIs(key);
      resolved := Resolved(key);
      if resolved in partitions {
        return;
      }
      if |partitions| >= maxPartitions && resolved != OVERFLOW {
        resolved := OVERFLOW;
        if resolved in partitions {
          return;
        }
      }
      partitions := partitions[resolved := VectorIndex.Empty(dim, maxElements)];
    }

    method InsertVector(key: Key, id: Id, vec: Vec) returns (ok: bool)
      requires Valid()
      modifies this
      ensures (partitions, ok) == InsertInto(Shape(), old(partitions), maxPartitions, key, id, vec)
      ensures Valid() && View() == Insert(old(View()), maxPartitions, key, id, vec, ok)
      ensures var part := PartAt(Shape(), old(partitions), InsertTarget(old(partitions.Keys), maxPartitions, key));
              ok <==> |vec| == dim && (id in VectorIndex.Vectors(part) || VectorIndex.ElementCount(part) < maxElements)
    {
      InsertIntoIs(Shape(), partitions, maxPartitions, key, id, vec);
      var target := GetOrCreate(key);
      var (updated, accepted) := VectorIndex.Insert(partitions[target], id, vec);
      UpdatedTwice(old(partitions), target, partitions[target], updated);
      partitions := partitions[target := updated];
      ok := accepted;
    }

    method RemoveVector(key: Key, id: Id) returns (ok: bool)
      requires Valid()
      modifies this
      ensures (partitions, ok) == RemoveFrom(old(partitions), maxPartitions, key, id)
      ensures Valid() && View() == Remove(old(View()), maxPartitions, key, id)
      ensures ok <==> id in Lookup(old(View()), maxPartitions, key)
    {
      RemoveFromIs(Shape(), partitions, maxPartitions, key, id);
      ResolvedIs(key);
      var resolved := Resolved(key);
      if resolved !in partitions {
        return false;
      }
      var (updated, removed) := VectorIndex.Remove(partitions[resolved], id);
      partitions := partitions[resolved := updated];
      ok := removed;
    }

    method Contains(key: Key, id: Id) returns (found: bool)
      requires Valid()
      ensures found <==> id in Lookup(View(), maxPartitions, key)
    {
      SizeIsKeys(partitions);
      var resolved := Resolved(key);
      if resolved !in partitions {
        return false;
      }
      VectorIndex.EveryIdHasAVector(partitions[resolved]);
      found := id in partitions[resolved].labels.idToLabel;
    }
  }
}
