/** One partition of the vector index: ids and the labels under which an HNSW graph holds
    their vectors, and the file that keeps the two maps. The graph is used through its
    contract: a deleted point keeps its slot, and adding a point reuses such a slot. */
module VectorIndex {
  import opened Maps

  type Id = string
  type Vec = seq<real>

  datatype Labels = Labels(idToLabel: map<Id, nat>, labelToId: map<nat, Id>)

  const NONE := Labels(map[], map[])

  /** `points` are the live vectors of the graph, `freed` its slots of deleted ones. */
  datatype Index = Index(dim: nat, maxElements: nat, labels: Labels, nextLabel: nat, points: map<nat, Vec>, freed: nat)

  function ElementCount(ix: Index): nat {
    |ix.points| + ix.freed
  }

  function Empty(dim: nat, maxElements: nat): Index {
    Index(dim, maxElements, NONE, 0, map[], 0)
  }

  function Insert(ix: Index, id: Id, vec: Vec): (Index, bool) {
    if |vec| != ix.dim then (ix, false)
    else if id in ix.labels.idToLabel then (ix, true)
    else if ElementCount(ix) >= ix.maxElements then (ix, false)
    else
      var lab := ix.nextLabel;
      (ix.(labels := Labels(ix.labels.idToLabel[id := lab], ix.labels.labelToId[lab := id]),
           nextLabel := lab + 1,
           points := ix.points[lab := vec],
           freed := if ix.freed > 0 then ix.freed - 1 else 0), true)
  }

  function Remove(ix: Index, id: Id): (Index, bool) {
    if id !in ix.labels.idToLabel then (ix, false)
    else
      var lab := ix.labels.idToLabel[id];
      (ix.(labels := Labels(ix.labels.idToLabel - {id}, ix.labels.labelToId - {lab}),
           points := ix.points - {lab},
           freed := ix.freed + 1), true)
  }

  /** The two maps are inverses of each other. */
  ghost predicate Inverse(l: Labels) {
    && (forall id <- l.idToLabel :: l.idToLabel[id] in l.labelToId && l.labelToId[l.idToLabel[id]] == id)
    && (forall lab <- l.labelToId :: l.labelToId[lab] in l.idToLabel && l.idToLabel[l.labelToId[lab]] == lab)
  }

  ghost predicate Valid(ix: Index) {
    && Inverse(ix.labels)
    && (forall lab <- ix.labels.labelToId :: lab < ix.nextLabel)
    && ix.points.Keys == ix.labels.labelToId.Keys
    && ElementCount(ix) <= ix.maxElements
    && forall lab <- ix.points :: |ix.points[lab]| == ix.dim
  }

  /** What the index means to its users: the vector of each id. */
  ghost function Vectors(ix: Index): map<Id, Vec> {
    map id <- ix.labels.idToLabel | ix.labels.idToLabel[id] in ix.points :: ix.points[ix.labels.idToLabel[id]]
  }

  lemma EveryIdHasAVector(ix: Index)
    requires Valid(ix)
    ensures Vectors(ix).Keys == ix.labels.idToLabel.Keys
  {
  }

  lemma InsertStaysValid(ix: Index, id: Id, vec: Vec)
    requires Valid(ix)
    ensures Valid(Insert(ix, id, vec).0) && ElementCount(Insert(ix, id, vec).0) >= ElementCount(ix)
  {
    var t := Insert(ix, id, vec).0;
    if t != ix {
      assert ix.nextLabel !in ix.points;
      assert |t.points| == |ix.points| + 1;
    }
  }

  lemma InsertedVectors(ix: Index, id: Id, vec: Vec)
    requires Inverse(ix.labels) && ix.points.Keys == ix.labels.labelToId.Keys && ix.nextLabel !in ix.points
    ensures var (t, ok) := Insert(ix, id, vec);
            Vectors(t) == if ok && id !in Vectors(ix) then Vectors(ix)[id := vec] else Vectors(ix)
  {
  }

  lemma InsertKeeps(ix: Index, id: Id, vec: Vec)
    requires Valid(ix)
    ensures var (t, ok) := Insert(ix, id, vec);
            && Valid(t)
            && Vectors(t) == (if ok && id !in Vectors(ix) then Vectors(ix)[id := vec] else Vectors(ix))
            && (ok <==> |vec| == ix.dim && (id in Vectors(ix) || ElementCount(ix) < ix.maxElements))
  {
    InsertStaysValid(ix, id, vec);
    InsertedVectors(ix, id, vec);
    EveryIdHasAVector(ix);
  }

  lemma RemoveStaysValid(ix: Index, id: Id)
    requires Valid(ix)
    ensures Valid(Remove(ix, id).0) && ElementCount(Remove(ix, id).0) == ElementCount(ix)
  {
    var t := Remove(ix, id).0;
    if id in ix.labels.idToLabel {
      var lab := ix.labels.idToLabel[id];
      assert lab in ix.points;
      assert t.points.Keys == ix.points.Keys - {lab};
      assert |t.points.Keys| == |ix.points.Keys| - 1;
      assert |t.points| == |t.points.Keys| && |ix.points| == |ix.points.Keys|;
    }
  }

  lemma RemovedVectors(ix: Index, id: Id)
    requires Inverse(ix.labels) && ix.points.Keys == ix.labels.labelToId.Keys
    ensures Vectors(Remove(ix, id).0) == Vectors(ix) - {id}
  {
    var after, want := Vectors(Remove(ix, id).0), Vectors(ix) - {id};
    forall x ensures x in after <==> x in want {
      if x in ix.labels.idToLabel && x != id {
        assert ix.labels.idToLabel[x] in ix.points;
      }
    }
  }

  lemma RemoveKeeps(ix: Index, id: Id)
    requires Valid(ix)
    ensures var (t, ok) := Remove(ix, id);
            Valid(t) && Vectors(t) == Vectors(ix) - {id} && (ok <==> id in Vectors(ix))
  {
    RemoveStaysValid(ix, id);
    RemovedVectors(ix, id);
    EveryIdHasAVector(ix);
  }

  // ---------------------------------------------------------------- runs

  datatype Call = CallInsert(id: Id, vec: Vec) | CallRemove(id: Id)

  function After(ix: Index, c: Call): Index {
    match c
    case CallInsert(id, vec) => Insert(ix, id, vec).0
    case CallRemove(id) => Remove(ix, id).0
  }

  function End(ix: Index, calls: seq<Call>): Index
    decreases |calls|
  {
    if calls == [] then ix else End(After(ix, calls[0]), calls[1..])
  }

  lemma {:induction false} RunKeepsValid(ix: Index, calls: seq<Call>)
    requires Valid(ix)
    ensures Valid(End(ix, calls))
    ensures ElementCount(End(ix, calls)) >= ElementCount(ix)
    ensures End(ix, calls).dim == ix.dim && End(ix, calls).maxElements == ix.maxElements
    decreases |calls|
  {
    if calls != [] {
      match calls[0] {
        case CallInsert(id, vec) => InsertStaysValid(ix, id, vec);
        case CallRemove(id) => RemoveStaysValid(ix, id);
      }
      RunKeepsValid(After(ix, calls[0]), calls[1..]);
    }
  }

  /** In every run the maps are inverses and the labels are below the next one. */
  lemma MapsStayInverse(dim: nat, maxElements: nat, calls: seq<Call>)
    ensures var ix := End(Empty(dim, maxElements), calls);
            Inverse(ix.labels) && forall lab <- ix.labels.labelToId :: lab < ix.nextLabel
  {
    RunKeepsValid(Empty(dim, maxElements), calls);
  }

  /** Removing gives no room back: once the graph has used all its slots, no new id is
      accepted in the rest of any run, however many are removed. */
  lemma FullStaysFull(ix: Index, calls: seq<Call>, id: Id, vec: Vec)
    requires Valid(ix) && ElementCount(ix) == ix.maxElements
    requires id !in End(ix, calls).labels.idToLabel
    ensures !Insert(End(ix, calls), id, vec).1
  {
    RunKeepsValid(ix, calls);
  }

  /** An index that holds nothing and refuses everything: its only slot was used once. */
  lemma EmptyButFull(id: Id, vec: Vec, other: Id, vec': Vec)
    ensures var ix := End(Empty(|vec|, 1), [CallInsert(id, vec), CallRemove(id)]);
            Vectors(ix) == map[] && ix.labels == NONE && !Insert(ix, other, vec').1
  {
    var ix := Empty(|vec|, 1);
    var calls := [CallInsert(id, vec), CallRemove(id)];
    assert calls[1..] == [CallRemove(id)] && calls[1..][1..] == [];
    var one := After(ix, calls[0]);
    assert End(ix, calls) == End(After(one, calls[1]), []);
    var two := Remove(one, id).0;
    assert one.points == map[0 := vec] && two.points == map[];
  }

  // ---------------------------------------------------------------- when an index is used up

  function Max(a: nat, b: nat): nat {
    if a < b then b else a
  }

  lemma CountAfter(ix: Index, c: Call)
    requires Valid(ix)
    ensures ElementCount(After(ix, c)) == Max(ElementCount(ix), |After(ix, c).points|)
  {
    match c
    case CallInsert(id, vec) =>
      if After(ix, c) != ix {
        assert ix.nextLabel !in ix.points;
        OneMore(ix.points, ix.nextLabel, vec);
      }
    case CallRemove(id) =>
      RemoveStaysValid(ix, id);
      if id in ix.labels.idToLabel {
        OneLess(ix.points, ix.labels.idToLabel[id]);
      }
  }

  /** The most points that the index has held at once. */
  function Peak(ix: Index, calls: seq<Call>): nat
    decreases |calls|
  {
    if calls == [] then |ix.points| else Max(|ix.points|, Peak(After(ix, calls[0]), calls[1..]))
  }

  lemma {:induction false} CountIsPeak(ix: Index, calls: seq<Call>)
    requires Valid(ix)
    ensures ElementCount(End(ix, calls)) == Max(ElementCount(ix), Peak(ix, calls))
    decreases |calls|
  {
    if calls != [] {
      StepKeepsValid(ix, calls[0]);
      CountAfter(ix, calls[0]);
      CountIsPeak(After(ix, calls[0]), calls[1..]);
    }
  }

  lemma StepKeepsValid(ix: Index, c: Call)
    requires Valid(ix)
    ensures Valid(After(ix, c))
  {
    match c
    case CallInsert(id, vec) => InsertStaysValid(ix, id, vec);
    case CallRemove(id) => RemoveStaysValid(ix, id);
  }

  lemma OnePointPerId(ix: Index)
    requires Valid(ix)
    ensures |ix.labels.idToLabel| == |ix.points|
  {
    InjectionFits(ix.labels.idToLabel.Keys, ix.labels.idToLabel, ix.points.Keys);
    InjectionFits(ix.points.Keys, ix.labels.labelToId, ix.labels.idToLabel.Keys);
    SizeOfKeys(ix.labels.idToLabel);
    SizeOfKeys(ix.points);
  }

  /** After some of the calls the index held `n` ids or more. */
  ghost predicate HeldOnce(ix: Index, calls: seq<Call>, n: nat) {
    exists k: nat | k <= |calls| :: |End(ix, calls[..k]).labels.idToLabel| >= n
  }

  lemma HeldNowOrLater(ix: Index, calls: seq<Call>, n: nat)
    requires calls != []
    ensures HeldOnce(ix, calls, n) <==> |ix.labels.idToLabel| >= n || HeldOnce(After(ix, calls[0]), calls[1..], n)
  {
    var next, rest := After(ix, calls[0]), calls[1..];
    assert calls[..0] == [] && End(ix, calls[..0]) == ix;
    forall k: nat | 0 < k <= |calls| ensures End(ix, calls[..k]) == End(next, rest[..k - 1]) {
      assert calls[..k][1..] == rest[..k - 1];
    }
    if HeldOnce(next, rest, n) {
      var k: nat :| k <= |rest| && |End(next, rest[..k]).labels.idToLabel| >= n;
      assert |End(ix, calls[..k + 1]).labels.idToLabel| >= n;
    }
  }

  lemma {:induction false} PeakIsHeld(ix: Index, calls: seq<Call>, n: nat)
    requires Valid(ix)
    ensures Peak(ix, calls) >= n <==> HeldOnce(ix, calls, n)
    decreases |calls|
  {
    OnePointPerId(ix);
    if calls == [] {
      assert calls[..0] == [];
      assert forall k: nat | k <= |calls| :: calls[..k] == [];
    } else {
      StepKeepsValid(ix, calls[0]);
      HeldNowOrLater(ix, calls, n);
      PeakIsHeld(After(ix, calls[0]), calls[1..], n);
    }
  }

  /** An index refuses a new id if and only if it has, at some time, held as many ids as it has
      slots; what it holds now does not matter. */
  lemma RefusesIffItWasFull(dim: nat, maxElements: nat, calls: seq<Call>, id: Id, vec: Vec)
    requires |vec| == dim && id !in End(Empty(dim, maxElements), calls).labels.idToLabel
    ensures !Insert(End(Empty(dim, maxElements), calls), id, vec).1 <==> HeldOnce(Empty(dim, maxElements), calls, maxElements)
  {
    var empty := Empty(dim, maxElements);
    RunKeepsValid(empty, calls);
    CountIsPeak(empty, calls);
    PeakIsHeld(empty, calls, maxElements);
  }
}
