/** The file in which a partition keeps its id and label maps next to the graph. */
module VectorIndexFile {
  import opened Bytes
  import opened Records
  import opened Sequences
  import opened VectorIndex
  import opened Wrappers

  const MAGIC := 0x3144_4956
  const VERSION := 1

  datatype Record = Record(lab: nat, id: Id)

  /** What a record's fields can hold: a 64-bit label and at most 2^32 - 1 bytes of id. */
  function Truncated(r: Record): Record {
    Record(r.lab % TWO_64, r.id[..|r.id| % TWO_32])
  }

  function RecordBytes(r: Record): Bytes {
    U64(r.lab) + U32(|r.id|) + r.id[..|r.id| % TWO_32]
  }

  function RecordsOf(ix: Index, order: seq<Id>): (rs: seq<Record>)
    requires forall id <- order :: id in ix.labels.idToLabel
    ensures |rs| == |order| && forall i :: 0 <= i < |order| ==> rs[i] == Record(ix.labels.idToLabel[order[i]], order[i])
  {
    if order == [] then [] else [Record(ix.labels.idToLabel[order[0]], order[0])] + RecordsOf(ix, order[1..])
  }

  function Header(ix: Index): (b: Bytes)
    ensures |b| == 40
  {
    U32(MAGIC) + U32(VERSION) + U64(ix.dim) + U64(ix.maxElements) + U64(ix.nextLabel) + U64(|ix.labels.idToLabel|)
  }

  /** An order in which the hash map can be walked. */
  ghost predicate Walks(ix: Index, order: seq<Id>) {
    && |order| == |ix.labels.idToLabel|
    && (forall id <- order :: id in ix.labels.idToLabel)
    && (forall id <- ix.labels.idToLabel :: id in order)
    && Distinct(order)
  }

  function FileOf(ix: Index, order: seq<Id>): Bytes
    requires forall id <- order :: id in ix.labels.idToLabel
  {
    Header(ix) + EncodeAll(RecordBytes, RecordsOf(ix, order))
  }

  datatype Failure = EndOfFile

  function FrontRecord(b: Bytes): Step<Record, Failure> {
    if |b| < 12 || |b| < 12 + FromLE(b[8..12]) then Stuck(EndOfFile)
    else Next(Record(FromLE(b[..8]), b[12..12 + FromLE(b[8..12])]), b[12 + FromLE(b[8..12])..])
  }

  /** An id that is there already keeps its label. */
  function Added(l: Labels, r: Record): Labels {
    Labels(if r.id in l.idToLabel then l.idToLabel else l.idToLabel[r.id := r.lab], l.labelToId[r.lab := r.id])
  }

  function AddAll(l: Labels, rs: seq<Record>): Labels
    decreases |rs|
  {
    if rs == [] then l else AddAll(Added(l, rs[0]), rs[1..])
  }

  /** The maps and the next label that records give, when all are there. */
  function Outcome(p: Parsed<Record, Failure>, count: nat, next: nat): (Labels, nat) {
    if p.failure.Some? then (NONE, count) else (AddAll(NONE, p.items), next)
  }

  /** What `load` makes of the id map file (nothing when it is missing) after the graph has
      been loaded: the maps and the next label. */
  function Loaded(file: Option<Bytes>, dim: nat, maxElements: nat, count: nat): (Labels, nat) {
    if file.None? then (NONE, count)
    else
      var b := file.value;
      if |b| < 8 || FromLE(b[..4]) != MAGIC || FromLE(b[4..8]) != VERSION then (NONE, count)
      else if |b| < 40 || FromLE(b[8..16]) != dim % TWO_64 || FromLE(b[16..24]) != maxElements % TWO_64 then (NONE, count)
      else
        Outcome(Repeat(FrontRecord, b[40..], FromLE(b[32..40])), count, FromLE(b[24..32]))
  }

  lemma {:induction false} LabelStays(l: Labels, rs: seq<Record>, id: Id)
    requires id in l.idToLabel
    ensures id in AddAll(l, rs).idToLabel && AddAll(l, rs).idToLabel[id] == l.idToLabel[id]
    decreases |rs|
  {
    if rs != [] {
      LabelStays(Added(l, rs[0]), rs[1..], id);
    }
  }

  lemma {:induction false} IdStays(l: Labels, rs: seq<Record>, lab: nat)
    requires lab in l.labelToId && forall r <- rs :: r.lab != lab
    ensures lab in AddAll(l, rs).labelToId && AddAll(l, rs).labelToId[lab] == l.labelToId[lab]
    decreases |rs|
  {
    if rs != [] {
      assert rs[0].lab != lab;
      IdStays(Added(l, rs[0]), rs[1..], lab);
    }
  }

  lemma {:induction false} FirstLabelCounts(l: Labels, rs: seq<Record>, i: nat)
    requires i < |rs| && rs[i].id !in l.idToLabel && forall j | 0 <= j < i :: rs[j].id != rs[i].id
    ensures rs[i].id in AddAll(l, rs).idToLabel && AddAll(l, rs).idToLabel[rs[i].id] == rs[i].lab
    decreases |rs|
  {
    var rest := rs[1..];
    if i == 0 {
      LabelStays(Added(l, rs[0]), rest, rs[0].id);
    } else {
      assert forall j | 0 <= j < i - 1 :: rest[j] == rs[j + 1];
      FirstLabelCounts(Added(l, rs[0]), rest, i - 1);
    }
  }

  lemma {:induction false} LastIdCounts(l: Labels, rs: seq<Record>, i: nat)
    requires i < |rs| && forall j | i < j < |rs| :: rs[j].lab != rs[i].lab
    ensures rs[i].lab in AddAll(l, rs).labelToId && AddAll(l, rs).labelToId[rs[i].lab] == rs[i].id
    decreases |rs|
  {
    var rest := rs[1..];
    assert forall j | 0 <= j < |rest| :: rest[j] == rs[j + 1];
    if i == 0 {
      IdStays(Added(l, rs[0]), rest, rs[0].lab);
    } else {
      LastIdCounts(Added(l, rs[0]), rest, i - 1);
    }
  }

  /** In a file that repeats itself the first label of an id counts, and the last id of a label. */
  lemma RepeatedRecords(rs: seq<Record>, i: nat)
    requires i < |rs|
    ensures (forall j | 0 <= j < i :: rs[j].id != rs[i].id) ==>
              rs[i].id in AddAll(NONE, rs).idToLabel && AddAll(NONE, rs).idToLabel[rs[i].id] == rs[i].lab
    ensures (forall j | i < j < |rs| :: rs[j].lab != rs[i].lab) ==>
              rs[i].lab in AddAll(NONE, rs).labelToId && AddAll(NONE, rs).labelToId[rs[i].lab] == rs[i].id
  {
    if forall j | 0 <= j < i :: rs[j].id != rs[i].id {
      FirstLabelCounts(NONE, rs, i);
    }
    if forall j | i < j < |rs| :: rs[j].lab != rs[i].lab {
      LastIdCounts(NONE, rs, i);
    }
  }

  // ---------------------------------------------------------------- loading what was saved

  lemma FrontOf(r: Record, rest: Bytes)
    ensures FrontRecord(RecordBytes(r) + rest) == Next(Truncated(r), rest)
  {
    var a, c, d := U64(r.lab), U32(|r.id|), r.id[..|r.id| % TWO_32];
    var b := a + c + d + rest;
    ReadU64(r.lab);
    ReadU32(|r.id|);
    assert b[..8] == a && b[8..12] == c;
    assert b[12..12 + |d|] == d && b[12 + |d|..] == rest;
  }

  /** A strict prefix of a record is no record. */
  lemma FrontOfPrefix(r: Record, b: Bytes)
    requires b < RecordBytes(r)
    ensures FrontRecord(b).Stuck?
  {
    var a, c, d := U64(r.lab), U32(|r.id|), r.id[..|r.id| % TWO_32];
    ReadU32(|r.id|);
    if |b| >= 12 {
      assert (a + c + d)[8..12] == c;
      assert b[8..12] == (a + c + d)[8..12];
    }
  }

  predicate Any(r: Record) {
    true
  }

  lemma RecordsInvert()
    ensures Inverts(FrontRecord, RecordBytes, Any, Truncated) && NeedsAll(FrontRecord, RecordBytes)
  {
    forall r, rest ensures FrontRecord(RecordBytes(r) + rest) == Next(Truncated(r), rest) {
      FrontOf(r, rest);
    }
    forall r, b | b < RecordBytes(r) ensures FrontRecord(b).Stuck? {
      FrontOfPrefix(r, b);
    }
  }

  lemma Parts(a: Bytes, b: Bytes, c: Bytes, d: Bytes, e: Bytes, f: Bytes, g: Bytes)
    requires |a| == |b| == 4 && |c| == |d| == |e| == |f| == 8
    ensures var h := a + b + c + d + e + f + g;
            && h[..4] == a && h[4..8] == b && h[8..16] == c && h[16..24] == d
            && h[24..32] == e && h[32..40] == f && h[40..] == g
  {
  }

  /** The numbers in the header of a file and what follows it. */
  ghost predicate HasHeader(b: Bytes, dim: nat, maxElements: nat, next: nat, n: nat, records: Bytes) {
    && |b| >= 40
    && FromLE(b[..4]) == MAGIC && FromLE(b[4..8]) == VERSION
    && FromLE(b[8..16]) == dim % TWO_64 && FromLE(b[16..24]) == maxElements % TWO_64
    && FromLE(b[24..32]) == next && FromLE(b[32..40]) == n
    && b[40..] == records
  }

  lemma SixNumbers(a: Bytes, b: Bytes, c: Bytes, d: Bytes, e: Bytes, f: Bytes, records: Bytes, dim: nat, maxElements: nat)
    requires |a| == |b| == 4 && |c| == |d| == |e| == |f| == 8
    requires FromLE(a) == MAGIC && FromLE(b) == VERSION && FromLE(c) == dim % TWO_64 && FromLE(d) == maxElements % TWO_64
    ensures HasHeader(a + b + c + d + e + f + records, dim, maxElements, FromLE(e), FromLE(f), records)
  {
    Parts(a, b, c, d, e, f, records);
  }

  lemma ReadSmall(n: nat)
    requires n < TWO_64
    ensures FromLE(U64(n)) == n
  {
    ReadU64(n);
    SmallRemainder(n, TWO_64);
  }

  lemma HeaderNumbers(ix: Index, records: Bytes)
    requires |ix.labels.idToLabel| < TWO_64
    ensures HasHeader(Header(ix) + records, ix.dim, ix.maxElements, ix.nextLabel % TWO_64, |ix.labels.idToLabel|, records)
  {
    ReadU32(MAGIC);
    ReadU32(VERSION);
    ReadU64(ix.dim);
    ReadU64(ix.maxElements);
    ReadU64(ix.nextLabel);
    ReadSmall(|ix.labels.idToLabel|);
    SixNumbers(U32(MAGIC), U32(VERSION), U64(ix.dim), U64(ix.maxElements), U64(ix.nextLabel), U64(|ix.labels.idToLabel|),
               records, ix.dim, ix.maxElements);
  }

  lemma ReadBackRecords(rs: seq<Record>)
    ensures Repeat(FrontRecord, EncodeAll(RecordBytes, rs), |rs|) == Parsed(MapAll(Truncated, rs), None)
  {
    RecordsInvert();
    RepeatAll(FrontRecord, RecordBytes, Any, Truncated, rs);
  }

  lemma ReadPrefixOfRecords(rs: seq<Record>, b: Bytes)
    requires b < EncodeAll(RecordBytes, rs)
    ensures Repeat(FrontRecord, b, |rs|).failure.Some?
  {
    RecordsInvert();
    RepeatPrefix(FrontRecord, RecordBytes, Any, Truncated, rs, b);
  }

  lemma LoadedWhen(b: Bytes, dim: nat, maxElements: nat, count: nat, next: nat, n: nat, records: Bytes)
    ensures HasHeader(b, dim, maxElements, next, n, records) ==>
              Loaded(Some(b), dim, maxElements, count) == Outcome(Repeat(FrontRecord, records, n), count, next)
  {
  }

  /** Loading a header of this index and some records. */
  lemma LoadedIs(ix: Index, records: Bytes, count: nat)
    requires |ix.labels.idToLabel| < TWO_64
    ensures Loaded(Some(Header(ix) + records), ix.dim, ix.maxElements, count)
            == Outcome(Repeat(FrontRecord, records, |ix.labels.idToLabel|), count, ix.nextLabel % TWO_64)
  {
    HeaderNumbers(ix, records);
    LoadedWhen(Header(ix) + records, ix.dim, ix.maxElements, count, ix.nextLabel % TWO_64, |ix.labels.idToLabel|, records);
  }

  lemma LoadOfSave(ix: Index, order: seq<Id>, count: nat)
    requires Walks(ix, order) && |order| < TWO_64
    ensures Loaded(Some(FileOf(ix, order)), ix.dim, ix.maxElements, count)
            == (AddAll(NONE, MapAll(Truncated, RecordsOf(ix, order))), ix.nextLabel % TWO_64)
  {
    var rs := RecordsOf(ix, order);
    ReadBackRecords(rs);
    LoadedIs(ix, EncodeAll(RecordBytes, rs), count);
  }

  lemma LoadOfShortPrefix(ix: Index, b: Bytes, count: nat)
    requires |b| < 40
    ensures Loaded(Some(b), ix.dim, ix.maxElements, count) == (NONE, count)
  {
  }

  /** A file cut off anywhere loads as an index without ids. */
  lemma LoadOfPrefix(ix: Index, order: seq<Id>, b: Bytes, count: nat)
    requires Walks(ix, order) && |order| < TWO_64 && b < FileOf(ix, order)
    ensures Loaded(Some(b), ix.dim, ix.maxElements, count) == (NONE, count)
  {
    if |b| < 40 {
      LoadOfShortPrefix(ix, b, count);
    } else {
      var rs := RecordsOf(ix, order);
      PrefixOfSum(b, Header(ix), EncodeAll(RecordBytes, rs));
      ReadPrefixOfRecords(rs, b[40..]);
      LoadedIs(ix, b[40..], count);
    }
  }

  /** How a file for an index of this dimension and capacity must begin. */
  function Front(dim: nat, maxElements: nat): Bytes {
    U32(MAGIC) + U32(VERSION) + U64(dim) + U64(maxElements)
  }

  lemma FourParts(s: Bytes, a: Bytes, b: Bytes, c: Bytes, d: Bytes)
    requires |s| >= 24 && s[..4] == a && s[4..8] == b && s[8..16] == c && s[16..24] == d
    ensures a + b + c + d <= s
  {
    assert s[..24] == a + b + c + d;
  }

  lemma FrontIs(b: Bytes, dim: nat, maxElements: nat)
    requires AreBytes(b) && |b| >= 24
    requires FromLE(b[..4]) == MAGIC && FromLE(b[4..8]) == VERSION
    requires FromLE(b[8..16]) == dim % TWO_64 && FromLE(b[16..24]) == maxElements % TWO_64
    ensures Front(dim, maxElements) <= b
  {
    WriteU32(b[..4]);
    WriteU32(b[4..8]);
    WriteU64(b[8..16], dim);
    WriteU64(b[16..24], maxElements);
    FourParts(b, U32(MAGIC), U32(VERSION), U64(dim), U64(maxElements));
  }

  /** A file that does not begin so loads as an index without ids: one of another format, of
      another version, or of an index of another dimension or capacity. */
  lemma LoadChecksHeader(b: Bytes, dim: nat, maxElements: nat, count: nat)
    requires AreBytes(b) && !(Front(dim, maxElements) <= b)
    ensures Loaded(Some(b), dim, maxElements, count) == (NONE, count)
  {
    if Loaded(Some(b), dim, maxElements, count) != (NONE, count) {
      FrontIs(b, dim, maxElements);
    }
  }

  /** The file of one index does not load into another of a different shape. */
  lemma LoadOfAnother(ix: Index, order: seq<Id>, dim: nat, maxElements: nat, count: nat)
    requires Walks(ix, order)
    requires dim % TWO_64 != ix.dim % TWO_64 || maxElements % TWO_64 != ix.maxElements % TWO_64
    ensures Loaded(Some(FileOf(ix, order)), dim, maxElements, count) == (NONE, count)
  {
    var rs := EncodeAll(RecordBytes, RecordsOf(ix, order));
    ReadU64(ix.dim);
    ReadU64(ix.maxElements);
    Parts(U32(MAGIC), U32(VERSION), U64(ix.dim), U64(ix.maxElements), U64(ix.nextLabel), U64(|ix.labels.idToLabel|), rs);
  }

  // ---------------------------------------------------------------- the maps come back

  /** The part of the maps that concerns some ids. */
  ghost function Restricted(l: Labels, ids: set<Id>): Labels {
    Labels(map id <- l.idToLabel | id in ids :: l.idToLabel[id],
           map lab <- l.labelToId | l.labelToId[lab] in ids :: l.labelToId[lab])
  }

  lemma AddNext(l: Labels, ids: set<Id>, id: Id)
    requires Inverse(l) && id in l.idToLabel && id !in ids
    ensures Added(Restricted(l, ids), Record(l.idToLabel[id], id)) == Restricted(l, ids + {id})
  {
    var lab := l.idToLabel[id];
    var more, want := Added(Restricted(l, ids), Record(lab, id)), Restricted(l, ids + {id});
    assert more.idToLabel == want.idToLabel;
    assert more.labelToId.Keys == want.labelToId.Keys;
    assert more.labelToId == want.labelToId;
  }

  lemma IdsOf(order: seq<Id>, done: set<Id>)
    requires order != []
    ensures done + {order[0]} + (set x <- order[1..]) == done + (set x <- order)
  {
    assert order == [order[0]] + order[1..];
  }

  lemma {:induction false} AddAllFrom(ix: Index, done: set<Id>, order: seq<Id>)
    requires Inverse(ix.labels) && Distinct(order)
    requires forall id <- order :: id in ix.labels.idToLabel && id !in done
    ensures AddAll(Restricted(ix.labels, done), RecordsOf(ix, order)) == Restricted(ix.labels, done + (set id <- order))
    decreases |order|
  {
    if order == [] {
      assert done + (set id <- order) == done;
    } else {
      var id, rest := order[0], order[1..];
      assert forall x <- rest :: x in order;
      AddNext(ix.labels, done, id);
      IdsOf(order, done);
      AddAllFrom(ix, done + {id}, rest);
      assert RecordsOf(ix, order)[1..] == RecordsOf(ix, rest);
    }
  }

  lemma AllBack(ix: Index, order: seq<Id>)
    requires Inverse(ix.labels) && Walks(ix, order)
    ensures AddAll(NONE, RecordsOf(ix, order)) == ix.labels
  {
    NothingRestricted(ix.labels);
    AddAllFrom(ix, {}, order);
    AllRestricted(ix.labels, {} + (set id <- order));
  }

  lemma NothingRestricted(l: Labels)
    ensures Restricted(l, {}) == NONE
  {
  }

  lemma AllRestricted(l: Labels, ids: set<Id>)
    requires Inverse(l) && l.idToLabel.Keys <= ids
    ensures Restricted(l, ids) == l
  {
    assert Restricted(l, ids).idToLabel == l.idToLabel;
    assert Restricted(l, ids).labelToId == l.labelToId;
  }

  predicate Short(id: Id) {
    |id| < TWO_32
  }

  lemma {:induction false} AddedIdsAreShort(l: Labels, rs: seq<Record>)
    requires forall id <- l.idToLabel :: Short(id)
    requires forall i :: 0 <= i < |rs| ==> Short(rs[i].id)
    ensures forall id <- AddAll(l, rs).idToLabel :: Short(id)
    decreases |rs|
  {
    if rs != [] {
      AddedIdsAreShort(Added(l, rs[0]), rs[1..]);
    }
  }

  lemma TruncatedIsShort(r: Record)
    ensures Short(Truncated(r).id)
    ensures Short(r.id) && r.lab < TWO_64 ==> Truncated(r) == r
  {
    assert r.id[..|r.id|] == r.id;
  }

  lemma ShortIdsAreWhole(ix: Index, order: seq<Id>)
    requires forall id <- ix.labels.idToLabel :: Short(id) && ix.labels.idToLabel[id] < TWO_64
    requires forall id <- order :: id in ix.labels.idToLabel
    ensures MapAll(Truncated, RecordsOf(ix, order)) == RecordsOf(ix, order)
  {
    var rs := RecordsOf(ix, order);
    forall i | 0 <= i < |rs| ensures MapAll(Truncated, rs)[i] == rs[i] {
      assert order[i] in ix.labels.idToLabel;
      TruncatedIsShort(rs[i]);
    }
  }

  lemma LoadedIdsAreShort(rs: seq<Record>, id: Id)
    requires id in AddAll(NONE, MapAll(Truncated, rs)).idToLabel
    ensures Short(id)
  {
    forall i | 0 <= i < |rs| ensures Short(MapAll(Truncated, rs)[i].id) {
      TruncatedIsShort(rs[i]);
    }
    AddedIdsAreShort(NONE, MapAll(Truncated, rs));
  }

  /** Saving and loading with the same dimension and capacity restores both maps and the
      next label if and only if no id is longer than a 32-bit length can tell. */
  lemma SaveThenLoad(ix: Index, order: seq<Id>, count: nat)
    requires Valid(ix) && Walks(ix, order) && |order| < TWO_64 && ix.nextLabel < TWO_64
    ensures Loaded(Some(FileOf(ix, order)), ix.dim, ix.maxElements, count) == (ix.labels, ix.nextLabel)
            <==> AllShort(ix)
  {
    LoadOfSave(ix, order, count);
    RestoredIff(ix, order);
    var restored := AddAll(NONE, MapAll(Truncated, RecordsOf(ix, order)));
    SamePair(Loaded(Some(FileOf(ix, order)), ix.dim, ix.maxElements, count), restored, ix.labels, ix.nextLabel);
  }

  lemma SamePair(loaded: (Labels, nat), restored: Labels, labels: Labels, next: nat)
    requires next < TWO_64 && loaded == (restored, next % TWO_64)
    ensures loaded == (labels, next) <==> restored == labels
  {
  }

  ghost predicate AllShort(ix: Index) {
    forall id <- ix.labels.idToLabel :: Short(id)
  }

  lemma RestoredIff(ix: Index, order: seq<Id>)
    requires Valid(ix) && Walks(ix, order) && ix.nextLabel < TWO_64
    ensures AddAll(NONE, MapAll(Truncated, RecordsOf(ix, order))) == ix.labels <==> AllShort(ix)
  {
    if AllShort(ix) {
      ShortIdsAreWhole(ix, order);
      AllBack(ix, order);
    } else {
      var id :| id in ix.labels.idToLabel && !Short(id);
      if id in AddAll(NONE, MapAll(Truncated, RecordsOf(ix, order))).idToLabel {
        LoadedIdsAreShort(RecordsOf(ix, order), id);
        assert false;
      }
    }
  }

  // ---------------------------------------------------------------- the object

  class Partition {
    const dim: nat
    const maxElements: nat
    var idToLabel: map<Id, nat>
    var labelToId: map<nat, Id>
    var nextLabel: nat
    var points: map<nat, Vec>
    var freed: nat

    function Value(): Index
      reads this
    {
      Index(dim, maxElements, Labels(idToLabel, labelToId), nextLabel, points, freed)
    }

    constructor (dim: nat, maxElements: nat)
      ensures Value() == Empty(dim, maxElements)
    {
      this.dim, this.maxElements := dim, maxElements;
      idToLabel, labelToId, nextLabel := map[], map[], 0;
      points, freed := map[], 0;
    }

    method InsertVector(id: Id, vec: Vec) returns (ok: bool)
      modifies this
      ensures (Value(), ok) == Insert(old(Value()), id, vec)
    {
      if |vec| != dim {
        return false;
      }
      if id in idToLabel {
        return true;
      }
      if |points| + freed >= maxElements {
        return false;
      }
      var lab := nextLabel;
      nextLabel := nextLabel + 1;
      points := points[lab := vec];
      if freed > 0 {
        freed := freed - 1;
      }
      idToLabel := idToLabel[id := lab];
      labelToId := labelToId[lab := id];
      ok := true;
    }

    method RemoveVector(id: Id) returns (ok: bool)
      modifies this
      ensures (Value(), ok) == Remove(old(Value()), id)
    {
      if id !in idToLabel {
        return false;
      }
      var lab := idToLabel[id];
      points := points - {lab};
      freed := freed + 1;
      labelToId := labelToId - {lab};
      idToLabel := idToLabel - {id};
      ok := true;
    }

    /** The id map part of `save`; `order` is the order in which the map is walked. */
    method Save(order: seq<Id>) returns (file: Bytes)
      requires forall id <- order :: id in idToLabel
      ensures file == FileOf(Value(), order)
    {
      file := U32(MAGIC) + U32(VERSION) + U64(dim) + U64(maxElements) + U64(nextLabel) + U64(|idToLabel|);
      ghost var rs := RecordsOf(Value(), order);
      var records := SaveRecords(idToLabel, order, rs);
      file := file + records;
    }

    /** `load`, given the graph that was loaded and the bytes of the id map file. */
    method Load(graph: map<nat, Vec>, deleted: nat, file: Option<Bytes>)
      modifies this
      ensures points == graph && freed == deleted
      ensures (Labels(idToLabel, labelToId), nextLabel) == Loaded(file, dim, maxElements, |graph| + deleted)
    {
      points, freed := graph, deleted;
      var count := |points| + freed;
      idToLabel, labelToId, nextLabel := map[], map[], count;
      if file.None? {
        return;
      }
      var b := file.value;
      if |b| < 8 || FromLE(b[..4]) != MAGIC || FromLE(b[4..8]) != VERSION {
        return;
      }
      if |b| < 40 || FromLE(b[8..16]) != dim % TWO_64 || FromLE(b[16..24]) != maxElements % TWO_64 {
        return;
      }
      var labels := LoadRecords(b[40..], FromLE(b[32..40]));
      if labels.None? {
        return;
      }
      idToLabel, labelToId, nextLabel := labels.value.idToLabel, labels.value.labelToId, FromLE(b[24..32]);
    }
  }

  method SaveRecord(lab: nat, id: Id) returns (bytes: Bytes)
    ensures bytes == RecordBytes(Record(lab, id))
  {
    var length := |id| % TWO_32;
    bytes := U64(lab) + U32(|id|);
    if length > 0 {
      bytes := bytes + id[..length];
    }
  }

  method SaveRecords(idToLabel: map<Id, nat>, order: seq<Id>, ghost rs: seq<Record>) returns (out: Bytes)
    requires forall id <- order :: id in idToLabel
    requires |rs| == |order| && forall i :: 0 <= i < |order| ==> rs[i] == Record(idToLabel[order[i]], order[i])
    ensures out == EncodeAll(RecordBytes, rs)
  {
    out := [];
    ghost var encode := RecordBytes;
    assert rs[0..] == rs;
    for i := 0 to |order|
      invariant EncodeAll(encode, rs) == out + EncodeAll(encode, rs[i..])
    {
      var bytes := SaveRecord(idToLabel[order[i]], order[i]);
      assert bytes == encode(rs[i]);
      assert rs[i..][1..] == rs[i + 1..];
      Associative(out, bytes, EncodeAll(encode, rs[i + 1..]));
      out := out + bytes;
    }
    assert rs[|order|..] == [];
  }

  /** One round of the loop over the records. */
  method LoadRecord(b: Bytes, start: nat) returns (r: Option<Record>, off: nat)
    requires start <= |b|
    ensures off <= |b|
    ensures FrontRecord(b[start..]) == if r.None? then Stuck(EndOfFile) else Next(r.value, b[off..])
  {
    ghost var rest := b[start..];
    off := start;
    if off + 12 > |b| {
      return None, off;
    }
    var lab, length := FromLE(b[off..off + 8]), FromLE(b[off + 8..off + 12]);
    assert rest[..8] == b[off..off + 8] && rest[8..12] == b[off + 8..off + 12];
    off := off + 12;
    if off + length > |b| {
      return None, off;
    }
    var id := b[off..off + length];
    assert id == rest[12..12 + length];
    off := off + length;
    assert b[off..] == rest[12 + length..];
    r := Some(Record(lab, id));
  }

  /** What loading ends with that has read `l` and goes on to `p`. */
  function Finish(l: Labels, p: Parsed<Record, Failure>): Option<Labels> {
    if p.failure.Some? then None else Some(AddAll(l, p.items))
  }

  lemma FinishNext(l: Labels, b: Bytes, count: nat, record: Record, rest: Bytes)
    requires count > 0 && FrontRecord(b) == Next(record, rest)
    ensures Finish(l, Repeat(FrontRecord, b, count)) == Finish(Added(l, record), Repeat(FrontRecord, rest, count - 1))
  {
    var records := Repeat(FrontRecord, rest, count - 1).items;
    assert ([record] + records)[1..] == records;
  }

  lemma FinishStops(l: Labels, b: Bytes, count: nat)
    ensures count == 0 ==> Finish(l, Repeat(FrontRecord, b, count)) == Some(l)
    ensures count > 0 && FrontRecord(b).Stuck? ==> Finish(l, Repeat(FrontRecord, b, count)) == None
  {
  }

  method LoadRecords(b: Bytes, count: nat) returns (r: Option<Labels>)
    ensures var p := Repeat(FrontRecord, b, count);
            r == if p.failure.Some? then None else Some(AddAll(NONE, p.items))
  {
    var labels := NONE;
    var off: nat := 0;
    ghost var want := Finish(NONE, Repeat(FrontRecord, b, count));
    assert b[0..] == b;
    for i := 0 to count
      invariant off <= |b|
      invariant want == Finish(labels, Repeat(FrontRecord, b[off..], count - i))
    {
      var record, next := LoadRecord(b, off);
      FinishStops(labels, b[off..], count - i);
      if record.None? {
        return None;
      }
      FinishNext(labels, b[off..], count - i, record.value, b[next..]);
      labels := Added(labels, record.value);
      off := next;
    }
    FinishStops(labels, b[off..], 0);
    r := Some(labels);
  }
}
