/** Reading a snapshot file back. The specification takes the body apart first and judges
    the entries afterwards; the method does both in one pass over offsets. */
module SnapshotRestore {
  import opened Bytes
  import opened Records
  import opened Snapshot
  import opened SnapshotPayload
  import opened Wrappers

  datatype Failure =
    | TruncatedFile
    | ChecksumMismatch
    | BadMagic
    | UnsupportedVersion(version: nat)
    | TruncatedEntryHeader
    | TruncatedVector
    | TruncatedPayloadLength
    | TruncatedPayload

  /** One entry as it stands in the file. */
  datatype Raw = Raw(vector: Bytes, payload: Bytes)

  /** A length-prefixed field at the front of `b` and what follows it. */
  datatype Prefixed = Prefixed(content: Bytes, rest: Bytes)

  function Front(b: Bytes): Option<Prefixed> {
    if |b| < 4 || |b| < 4 + FromLE(b[..4]) then None
    else Some(Prefixed(b[4..4 + FromLE(b[..4])], b[4 + FromLE(b[..4])..]))
  }

  function FrontEntry(b: Bytes): Step<Raw, Failure> {
    var vector := Front(b);
    if vector.None? then Stuck(if |b| < 4 then TruncatedEntryHeader else TruncatedVector)
    else
      var c := vector.value.rest;
      var payload := Front(c);
      if payload.None? then Stuck(if |c| < 4 then TruncatedPayloadLength else TruncatedPayload)
      else Next(Raw(vector.value.content, payload.value.content), payload.value.rest)
  }

  function Parse(b: Bytes, count: nat): Parsed<Raw, Failure> {
    Repeat(FrontEntry, b, count)
  }

  /** What may be restored, and which inserts the target refuses by throwing. */
  datatype Policy = Policy(dim: nat, allowlist: seq<Bytes>, throws: Item -> bool)

  datatype Verdict = Corrupted | SkippedTenant | Restored(item: Item) | Refused(item: Item)

  predicate TenantAllowed(policy: Policy, partition: Bytes) {
    policy.allowlist == [] || Tenant(partition) in policy.allowlist
  }

  function Vector(b: Bytes): seq<Float> {
    if |b| % 4 == 0 then Floats(b) else []
  }

  function Judge(policy: Policy, raw: Raw): Verdict {
    var partition, id := Field(raw.payload, "partition"), Field(raw.payload, "id");
    if partition.None? || id.None? then Corrupted
    else if !TenantAllowed(policy, partition.value) then SkippedTenant
    else if |Vector(raw.vector)| != policy.dim then Corrupted
    else
      var item := Item(partition.value, id.value, Vector(raw.vector));
      if policy.throws(item) then Refused(item) else Restored(item)
  }

  /** The counters of a restore and the insert calls it has made. */
  datatype Tally = Tally(read: nat, restored: nat, skipped: nat, corrupted: nat, calls: seq<Item>)

  const NOTHING := Tally(0, 0, 0, 0, [])

  function Count(t: Tally, v: Verdict): Tally {
    match v
    case Corrupted => t.(read := t.read + 1, corrupted := t.corrupted + 1)
    case SkippedTenant => t.(read := t.read + 1, skipped := t.skipped + 1)
    case Restored(item) => t.(read := t.read + 1, restored := t.restored + 1, calls := t.calls + [item])
    case Refused(item) => t.(read := t.read + 1, corrupted := t.corrupted + 1, calls := t.calls + [item])
  }

  /** All the verdicts, after what `t` has counted. */
  function CountAll(t: Tally, verdicts: seq<Verdict>): Tally
    decreases |verdicts|
  {
    if verdicts == [] then t else CountAll(Count(t, verdicts[0]), verdicts[1..])
  }

  function JudgeAll(policy: Policy, raws: seq<Raw>): (verdicts: seq<Verdict>)
    ensures |verdicts| == |raws|
  {
    seq(|raws|, i requires 0 <= i < |raws| => Judge(policy, raws[i]))
  }

  datatype Outcome = Outcome(tally: Tally, failure: Option<Failure>, checksumOk: bool, versionOk: bool)

  predicate ChecksumOk(file: Bytes, sha: Bytes -> Bytes)
    requires |file| >= 64
  {
    sha(file[..|file| - 32]) == Hex(file[|file| - 32..])
  }

  function PolicyOf(file: Bytes, allowlist: seq<Bytes>, throws: Item -> bool): Policy
    requires |file| >= 64
  {
    Policy(FromLE(file[20..24]), allowlist, throws)
  }

  function Restoration(file: Bytes, sha: Bytes -> Bytes, allowlist: seq<Bytes>, throws: Item -> bool): Outcome {
    if |file| < 64 then Outcome(NOTHING, Some(TruncatedFile), false, false)
    else if !ChecksumOk(file, sha) then Outcome(NOTHING, Some(ChecksumMismatch), false, false)
    else if file[..16] != MAGIC then Outcome(NOTHING, Some(BadMagic), true, false)
    else if FromLE(file[16..20]) != VERSION then Outcome(NOTHING, Some(UnsupportedVersion(FromLE(file[16..20]))), true, false)
    else
      var parsed := Parse(file[32..|file| - 32], FromLE(file[24..32]));
      Outcome(CountAll(NOTHING, JudgeAll(PolicyOf(file, allowlist, throws), parsed.items)), parsed.failure, true, true)
  }

  /** The field that stands at offset `off` of the body. */
  lemma FrontAt(body: Bytes, off: nat)
    requires off <= |body|
    ensures var b := body[off..];
            if off + 4 > |body| then |b| < 4 && Front(b).None?
            else
              var n := FromLE(body[off..off + 4]);
              && |b| >= 4
              && Front(b) == if off + 4 + n > |body| then None
                             else Some(Prefixed(body[off + 4..off + 4 + n], body[off + 4 + n..]))
  {
    if off + 4 <= |body| {
      var b := body[off..];
      assert b[..4] == body[off..off + 4];
      var n := FromLE(b[..4]);
      if off + 4 + n <= |body| {
        assert b[4..4 + n] == body[off + 4..off + 4 + n] && b[4 + n..] == body[off + 4 + n..];
      }
    }
  }

  /** One round of the loop: what it reads, if the body is long enough. */
  method ReadEntry(body: Bytes, start: nat) returns (raw: Raw, off: nat, failure: Option<Failure>)
    requires start <= |body|
    ensures off <= |body|
    ensures FrontEntry(body[start..]) == if failure.None? then Next(raw, body[off..]) else Stuck(failure.value)
  {
    off, raw := start, Raw([], []);
    FrontAt(body, off);
    if off + 4 > |body| {
      return raw, off, Some(TruncatedEntryHeader);
    }
    var n := FromLE(body[off..off + 4]);
    off := off + 4;
    if off + n > |body| {
      return raw, off, Some(TruncatedVector);
    }
    var vector := body[off..off + n];
    off := off + n;
    FrontAt(body, off);
    if off + 4 > |body| {
      return raw, off, Some(TruncatedPayloadLength);
    }
    var m := FromLE(body[off..off + 4]);
    off := off + 4;
    if off + m > |body| {
      return raw, off, Some(TruncatedPayload);
    }
    raw := Raw(vector, body[off..off + m]);
    off := off + m;
    failure := None;
  }

  method JudgeEntry(policy: Policy, raw: Raw, before: Tally) returns (t: Tally)
    ensures t == Count(before, Judge(policy, raw))
  {
    t := before.(read := before.read + 1);
    var partition := ExtractField(raw.payload, "partition");
    if partition.None? {
      t := t.(corrupted := t.corrupted + 1);
      return;
    }
    var id := ExtractField(raw.payload, "id");
    if id.None? {
      t := t.(corrupted := t.corrupted + 1);
      return;
    }
    if policy.allowlist != [] {
      if Tenant(partition.value) !in policy.allowlist {
        t := t.(skipped := t.skipped + 1);
        return;
      }
    }
    var vec := Vector(raw.vector);
    if |vec| != policy.dim {
      t := t.(corrupted := t.corrupted + 1);
      return;
    }
    var item := Item(partition.value, id.value, vec);
    t := t.(calls := t.calls + [item]);
    if policy.throws(item) {
      t := t.(corrupted := t.corrupted + 1);
    } else {
      t := t.(restored := t.restored + 1);
    }
  }

  method Restore(file: Bytes, sha: Bytes -> Bytes, allowlist: seq<Bytes>, throws: Item -> bool) returns (r: Outcome)
    ensures r == Restoration(file, sha, allowlist, throws)
  {
    if |file| < 64 {
      return Outcome(NOTHING, Some(TruncatedFile), false, false);
    }
    var body := file[..|file| - 32];
    var stored := EncodeHex(file[|file| - 32..]);
    if sha(body) != stored {
      return Outcome(NOTHING, Some(ChecksumMismatch), false, false);
    }
    if file[..16] != MAGIC {
      return Outcome(NOTHING, Some(BadMagic), true, false);
    }
    var version := FromLE(file[16..20]);
    if version != VERSION {
      return Outcome(NOTHING, Some(UnsupportedVersion(version)), true, false);
    }
    var policy := PolicyOf(file, allowlist, throws);
    assert body[32..] == file[32..|file| - 32];
    r := RestoreEntries(policy, body, FromLE(file[24..32]));
  }

  /** What a restore ends with that has counted `t` and goes on to `parsed`. */
  function Finish(policy: Policy, t: Tally, parsed: Parsed<Raw, Failure>): Outcome {
    Outcome(CountAll(t, JudgeAll(policy, parsed.items)), parsed.failure, true, true)
  }

  lemma JudgeFirst(policy: Policy, raw: Raw, raws: seq<Raw>)
    ensures JudgeAll(policy, [raw] + raws) == [Judge(policy, raw)] + JudgeAll(policy, raws)
  {
  }

  lemma CountFirst(t: Tally, v: Verdict, verdicts: seq<Verdict>)
    ensures CountAll(t, [v] + verdicts) == CountAll(Count(t, v), verdicts)
  {
    assert ([v] + verdicts)[1..] == verdicts;
  }

  /** With `left` entries to come from `b`, a restore that has counted `t` ends with `r`. */
  ghost predicate EndsWith(policy: Policy, t: Tally, b: Bytes, left: nat, r: Outcome) {
    r == Finish(policy, t, Parse(b, left))
  }

  lemma EndsAfterNext(policy: Policy, t: Tally, b: Bytes, left: nat, r: Outcome, raw: Raw, rest: Bytes)
    requires left > 0 && FrontEntry(b) == Next(raw, rest) && EndsWith(policy, t, b, left, r)
    ensures EndsWith(policy, Count(t, Judge(policy, raw)), rest, left - 1, r)
  {
    var raws := Parse(rest, left - 1).items;
    JudgeFirst(policy, raw, raws);
    CountFirst(t, Judge(policy, raw), JudgeAll(policy, raws));
  }

  lemma EndsHere(policy: Policy, t: Tally, b: Bytes, left: nat, r: Outcome, failure: Option<Failure>)
    requires if failure.None? then left == 0 else left > 0 && FrontEntry(b) == Stuck(failure.value)
    requires EndsWith(policy, t, b, left, r)
    ensures r == Outcome(t, failure, true, true)
  {
  }

  /** One round of the loop, with `left` entries still to come. */
  method RestoreNext(policy: Policy, body: Bytes, start: nat, before: Tally, ghost left: nat, ghost r: Outcome)
    returns (t: Tally, off: nat, failure: Option<Failure>)
    requires start <= |body| && left > 0 && EndsWith(policy, before, body[start..], left, r)
    ensures off <= |body|
    ensures failure.None? ==> EndsWith(policy, t, body[off..], left - 1, r)
    ensures failure.Some? ==> r == Outcome(t, failure, true, true)
  {
    var raw;
    raw, off, failure := ReadEntry(body, start);
    t := before;
    if failure.Some? {
      EndsHere(policy, t, body[start..], left, r, failure);
      return;
    }
    EndsAfterNext(policy, t, body[start..], left, r, raw, body[off..]);
    t := JudgeEntry(policy, raw, t);
  }

  method RestoreEntries(policy: Policy, body: Bytes, count: nat) returns (r: Outcome)
    requires |body| >= 32
    ensures var parsed := Parse(body[32..], count);
            r == Outcome(CountAll(NOTHING, JudgeAll(policy, parsed.items)), parsed.failure, true, true)
  {
    var t, off: nat := NOTHING, 32;
    ghost var left, want := count, Finish(policy, NOTHING, Parse(body[32..], count));
    for i := 0 to count
      invariant off <= |body| && left == count - i
      invariant EndsWith(policy, t, body[off..], left, want)
    {
      var failure;
      t, off, failure := RestoreNext(policy, body, off, t, left, want);
      if failure.Some? {
        return Outcome(t, failure, true, true);
      }
      left := left - 1;
    }
    EndsHere(policy, t, body[off..], left, want, None);
    return Outcome(t, None, true, true);
  }

  // ---------------------------------------------------------------- any file

  predicate Fits(raw: Raw) {
    |raw.vector| < TWO_32 && |raw.payload| < TWO_32
  }

  function Prefix(content: Bytes): Bytes {
    U32(|content|) + content
  }

  function RawBytes(raw: Raw): Bytes {
    Prefix(raw.vector) + Prefix(raw.payload)
  }

  lemma FrontOf(content: Bytes, rest: Bytes)
    requires |content| < TWO_32
    ensures Front(Prefix(content) + rest) == Some(Prefixed(content, rest))
  {
    ReadU32(|content|);
    var b := Prefix(content) + rest;
    assert b[..4] == U32(|content|);
  }

  /** A field can only stand where its encoding stands. */
  lemma FrontIs(b: Bytes)
    requires AreBytes(b) && Front(b).Some?
    ensures var f := Front(b).value; |f.content| < TWO_32 && b == Prefix(f.content) + f.rest && AreBytes(f.rest)
  {
    WriteU32(b[..4]);
  }

  lemma FrontEntryOf(raw: Raw, rest: Bytes)
    requires Fits(raw)
    ensures FrontEntry(RawBytes(raw) + rest) == Next(raw, rest)
  {
    assert RawBytes(raw) + rest == Prefix(raw.vector) + (Prefix(raw.payload) + rest);
    FrontOf(raw.vector, Prefix(raw.payload) + rest);
    FrontOf(raw.payload, rest);
  }

  lemma FrontEntryIs(b: Bytes)
    requires AreBytes(b) && FrontEntry(b).Next?
    ensures var f := FrontEntry(b); Fits(f.item) && b == RawBytes(f.item) + f.rest && AreBytes(f.rest)
  {
    FrontIs(b);
    FrontIs(Front(b).value.rest);
  }

  function Same(raw: Raw): Raw {
    raw
  }

  lemma FrontEntryInverts()
    ensures Inverts(FrontEntry, RawBytes, Fits, Same)
  {
    forall raw, rest | Fits(raw) ensures FrontEntry(RawBytes(raw) + rest) == Next(raw, rest) {
      FrontEntryOf(raw, rest);
    }
  }

  /** Parsing inverts writing. */
  lemma ParseAll(raws: seq<Raw>)
    requires forall raw <- raws :: Fits(raw)
    ensures Parse(EncodeAll(RawBytes, raws), |raws|) == Parsed(raws, None)
  {
    FrontEntryInverts();
    RepeatAll(FrontEntry, RawBytes, Fits, Same, raws);
    assert MapAll(Same, raws) == raws;
  }

  /** No entry stands at the front of `b`. */
  ghost predicate NoEntry(b: Bytes) {
    forall raw :: Fits(raw) ==> !(RawBytes(raw) <= b)
  }

  lemma NoEntryWhenStuck(b: Bytes)
    requires FrontEntry(b).Stuck?
    ensures NoEntry(b)
  {
    forall raw | Fits(raw) ensures !(RawBytes(raw) <= b) {
      if RawBytes(raw) <= b {
        var rest := b[|RawBytes(raw)|..];
        assert b == RawBytes(raw) + rest;
        FrontEntryOf(raw, rest);
        assert false;
      }
    }
  }

  /** A cut anywhere in a field leaves no field. */
  lemma FrontOfCut(content: Bytes, k: nat)
    requires |content| < TWO_32 && k < |Prefix(content)|
    ensures Front(Prefix(content)[..k]).None?
  {
    var b := Prefix(content)[..k];
    if k >= 4 {
      ReadU32(|content|);
      assert b[..4] == U32(|content|);
    }
  }

  /** A file that ends within an entry is reported by the part it ends in: the length of the
      vector, the vector, the length of the payload, or the payload. */
  lemma CutIsNamed(raw: Raw, k: nat)
    requires Fits(raw) && k < |RawBytes(raw)|
    ensures FrontEntry(RawBytes(raw)[..k])
            == Stuck(if k < 4 then TruncatedEntryHeader
                     else if k < 4 + |raw.vector| then TruncatedVector
                     else if k < 4 + |raw.vector| + 4 then TruncatedPayloadLength
                     else TruncatedPayload)
  {
    var v, p := Prefix(raw.vector), Prefix(raw.payload);
    var b := RawBytes(raw)[..k];
    if k < |v| {
      assert b == v[..k];
      FrontOfCut(raw.vector, k);
    } else {
      assert b == v + p[..k - |v|];
      FrontOf(raw.vector, p[..k - |v|]);
      FrontOfCut(raw.payload, k - |v|);
    }
  }

  lemma FrontEntryShrinks()
    ensures Shrinks(FrontEntry, 8)
  {
  }

  lemma FrontEntryTakes()
    ensures Takes(FrontEntry, RawBytes, Fits)
  {
    forall b | AreBytes(b) && FrontEntry(b).Next?
      ensures var f := FrontEntry(b); Fits(f.item) && AreBytes(f.rest) && b == RawBytes(f.item) + f.rest
    {
      FrontEntryIs(b);
    }
  }

  /** What parsing finds is exactly the longest run of up to `count` well-formed entries at
      the front of the body, and it fails exactly when there are fewer. */
  lemma ParseIsExact(b: Bytes, count: nat)
    requires AreBytes(b)
    ensures var p, left := Parse(b, count), Leftover(FrontEntry, b, count);
            && b == EncodeAll(RawBytes, p.items) + left
            && |p.items| <= count
            && (p.failure.None? <==> |p.items| == count)
            && (p.failure.Some? ==> NoEntry(left))
            && forall i :: 0 <= i < |p.items| ==> Fits(p.items[i])
  {
    FrontEntryShrinks();
    RepeatIsBounded(FrontEntry, 8, b, count);
    FrontEntryTakes();
    RepeatIsFaithful(FrontEntry, RawBytes, Fits, b, count);
    var left := Leftover(FrontEntry, b, count);
    if FrontEntry(left).Stuck? {
      NoEntryWhenStuck(left);
    }
  }

  /** The partition belongs to a listed tenant; an empty list lists everyone. */
  ghost predicate OnList(allowlist: seq<Bytes>, partition: Bytes) {
    allowlist == [] || exists t <- allowlist :: BelongsTo(partition, t)
  }

  lemma AllowedIffOnList(policy: Policy, partition: Bytes)
    ensures TenantAllowed(policy, partition) <==> OnList(policy.allowlist, partition)
  {
    TenantIff(partition, Tenant(partition));
    forall t <- policy.allowlist ensures BelongsTo(partition, t) <==> t == Tenant(partition) {
      TenantIff(partition, t);
    }
  }

  /** What becomes of an entry: corrupted when a field is missing, skipped when its tenant is
      not listed, corrupted when its dimension is another one, and otherwise inserted. */
  lemma JudgedExactly(policy: Policy, raw: Raw)
    ensures var partition, id, vec := Field(raw.payload, "partition"), Field(raw.payload, "id"), Vector(raw.vector);
            Judge(policy, raw)
            == if partition.None? || id.None? then Corrupted
               else if !OnList(policy.allowlist, partition.value) then SkippedTenant
               else if |vec| != policy.dim then Corrupted
               else
                 var item := Item(partition.value, id.value, vec);
                 if policy.throws(item) then Refused(item) else Restored(item)
  {
    if Field(raw.payload, "partition").Some? {
      AllowedIffOnList(policy, Field(raw.payload, "partition").value);
    }
  }

  /** How many verdicts of a kind there are. */
  function Tallies(verdicts: seq<Verdict>, kind: Verdict -> bool): nat {
    if verdicts == [] then 0 else (if kind(verdicts[0]) then 1 else 0) + Tallies(verdicts[1..], kind)
  }

  /** The counters count what they are named after. */
  lemma {:induction false} CountersAreExact(t: Tally, verdicts: seq<Verdict>)
    ensures var u := CountAll(t, verdicts);
            && u.read == t.read + |verdicts|
            && u.restored == t.restored + Tallies(verdicts, (v: Verdict) => v.Restored?)
            && u.skipped == t.skipped + Tallies(verdicts, (v: Verdict) => v.SkippedTenant?)
            && u.corrupted == t.corrupted + Tallies(verdicts, (v: Verdict) => v.Corrupted? || v.Refused?)
    decreases |verdicts|
  {
    if verdicts != [] {
      CountersAreExact(Count(t, verdicts[0]), verdicts[1..]);
    }
  }

  /** Every entry read is counted once, and only admissible entries are inserted. */
  ghost predicate Sound(policy: Policy, t: Tally) {
    && t.read == t.restored + t.skipped + t.corrupted
    && t.restored <= |t.calls| <= t.restored + t.corrupted
    && forall item <- t.calls :: OnList(policy.allowlist, item.partition) && |item.vec| == policy.dim
  }

  ghost predicate Admissible(policy: Policy, v: Verdict) {
    (v.Restored? || v.Refused?) ==> OnList(policy.allowlist, v.item.partition) && |v.item.vec| == policy.dim
  }

  lemma VerdictsAreAdmissible(policy: Policy, raws: seq<Raw>)
    ensures forall v <- JudgeAll(policy, raws) :: Admissible(policy, v)
  {
    forall i | 0 <= i < |raws| ensures Admissible(policy, Judge(policy, raws[i])) {
      if Field(raws[i].payload, "partition").Some? {
        AllowedIffOnList(policy, Field(raws[i].payload, "partition").value);
      }
    }
  }

  lemma {:induction false} CountAllIsSound(policy: Policy, t: Tally, verdicts: seq<Verdict>)
    requires Sound(policy, t) && forall v <- verdicts :: Admissible(policy, v)
    ensures Sound(policy, CountAll(t, verdicts))
    ensures CountAll(t, verdicts).read == t.read + |verdicts|
    decreases |verdicts|
  {
    if verdicts != [] {
      assert Admissible(policy, verdicts[0]);
      CountAllIsSound(policy, Count(t, verdicts[0]), verdicts[1..]);
    }
  }

  /** For every file: nothing is inserted before the checksum, the magic and the version
      have been accepted; the work is bounded by the size of the file; the counters add up;
      the allowlist and the dimension are respected. */
  lemma RestoreIsSafe(file: Bytes, sha: Bytes -> Bytes, allowlist: seq<Bytes>, throws: Item -> bool)
    requires AreBytes(file)
    ensures var r := Restoration(file, sha, allowlist, throws);
            && (r.checksumOk <==> |file| >= 64 && ChecksumOk(file, sha))
            && (r.versionOk <==> r.checksumOk && MAGIC + U32(VERSION) <= file)
            && (!r.versionOk ==> r.tally == NOTHING && r.failure.Some?)
            && 8 * r.tally.read <= (if |file| >= 64 then |file| - 64 else 0)
            && (|file| >= 64 ==> Sound(PolicyOf(file, allowlist, throws), r.tally))
  {
    if |file| >= 64 {
      HeaderFront(file);
      var policy := PolicyOf(file, allowlist, throws);
      var parsed := Parse(file[32..|file| - 32], FromLE(file[24..32]));
      FrontEntryShrinks();
      RepeatIsBounded(FrontEntry, 8, file[32..|file| - 32], FromLE(file[24..32]));
      VerdictsAreAdmissible(policy, parsed.items);
      CountAllIsSound(policy, NOTHING, JudgeAll(policy, parsed.items));
    }
  }

  lemma HeaderFront(file: Bytes)
    requires |file| >= 64 && AreBytes(file)
    ensures MAGIC + U32(VERSION) <= file <==> file[..16] == MAGIC && FromLE(file[16..20]) == VERSION
  {
    var version := U32(VERSION);
    ReadU32(VERSION);
    WriteU32(file[16..20]);
    assert |MAGIC| == 16;
    assert file[..20] == file[..16] + file[16..20];
    assert MAGIC + version <= file <==> MAGIC + version == file[..20];
    assert MAGIC + version == file[..20] <==> MAGIC == file[..16] && version == file[16..20] by {
      assert file[..20][..16] == file[..16] && file[..20][16..] == file[16..20];
      assert (MAGIC + version)[..16] == MAGIC && (MAGIC + version)[16..] == version;
    }
  }
}
