/** Restoring a dump: the insert calls that `restore` makes for a file that `dump` wrote. */
module SnapshotRoundTrip {
  import opened Bytes
  import opened Records
  import opened Sequences
  import opened Snapshot
  import opened SnapshotPayload
  import opened SnapshotRestore
  import opened Wrappers

  /** The sizes the length fields can hold. */
  ghost predicate Fitting(entries: seq<Item>) {
    |entries| < TWO_64 && forall e <- entries :: Fits(RawOf(e))
  }

  function RawOf(e: Item): Raw {
    Raw(Flatten(e.vec), Payload(e.partition, e.id))
  }

  /** The size of the first vector that is not empty. */
  function Dimension(entries: seq<Item>): nat {
    if entries == [] then 0
    else if entries[0].vec != [] then |entries[0].vec|
    else Dimension(entries[1..])
  }

  function Mangled(e: Item): Item {
    Item(Mangle(e.partition), Mangle(e.id), e.vec)
  }

  /** Whether an entry of a dump comes back. */
  predicate Returns(policy: Policy, e: Item) {
    TenantAllowed(policy, Mangle(e.partition)) && |e.vec| == policy.dim
  }

  function Replay(policy: Policy, entries: seq<Item>): seq<Item> {
    if entries == [] then []
    else (if Returns(policy, entries[0]) then [Mangled(entries[0])] else []) + Replay(policy, entries[1..])
  }

  // ---------------------------------------------------------------- what is written

  lemma {:induction false} FinalDimIsFirst(entries: seq<Item>, dim: nat)
    requires Fitting(entries)
    ensures FinalDim(entries, dim) == if dim == 0 then Dimension(entries) else dim
    decreases |entries|
  {
    if entries != [] {
      assert Fits(RawOf(entries[0]));
      FinalDimIsFirst(entries[1..], if dim == 0 then |entries[0].vec| else dim);
    }
  }

  lemma {:induction false} WrittenAreEntries(entries: seq<Item>, dim: nat)
    ensures |Written(entries, dim)| <= |entries|
    ensures forall e <- Written(entries, dim) :: e in entries
    decreases |entries|
  {
    if entries != [] {
      WrittenAreEntries(entries[1..], dim);
      WrittenAreEntries(entries[1..], |entries[0].vec| % TWO_32);
    }
  }

  lemma ReplayMore(policy: Policy, e: Item, rest: seq<Item>)
    ensures Replay(policy, [e] + rest) == (if Returns(policy, e) then [Mangled(e)] else []) + Replay(policy, rest)
  {
    assert ([e] + rest)[1..] == rest;
  }

  /** The first entry is written, and its dimension is kept, unless it has another one. */
  lemma WrittenFirst(e: Item, rest: seq<Item>, dim: nat)
    requires Fits(RawOf(e))
    ensures if dim != 0 && |e.vec| != dim
            then Written([e] + rest, dim) == Written(rest, dim) && FinalDim([e] + rest, dim) == FinalDim(rest, dim)
            else Written([e] + rest, dim) == [e] + Written(rest, |e.vec|)
                 && FinalDim([e] + rest, dim) == FinalDim(rest, |e.vec|)
  {
    assert ([e] + rest)[1..] == rest;
  }

  lemma {:induction false} WrittenEnough(policy: Policy, entries: seq<Item>, dim: nat)
    requires Fitting(entries) && policy.dim == FinalDim(entries, dim)
    ensures Replay(policy, Written(entries, dim)) == Replay(policy, entries)
    decreases |entries|
  {
    if entries != [] {
      var e, rest := entries[0], entries[1..];
      assert Fits(RawOf(e));
      FinalDimIsFirst(entries, dim);
      assert entries == [e] + rest;
      WrittenFirst(e, rest, dim);
      ReplayMore(policy, e, rest);
      if dim != 0 && |e.vec| != dim {
        WrittenEnough(policy, rest, dim);
        assert !Returns(policy, e);
      } else {
        WrittenEnough(policy, rest, |e.vec|);
        ReplayMore(policy, e, Written(rest, |e.vec|));
      }
    }
  }

  function RawsOf(items: seq<Item>): (raws: seq<Raw>)
    ensures |raws| == |items| && forall i :: 0 <= i < |items| ==> raws[i] == RawOf(items[i])
  {
    if items == [] then [] else [RawOf(items[0])] + RawsOf(items[1..])
  }

  lemma {:induction false} ConcatIsEncoding(items: seq<Item>)
    requires forall e <- items :: Fits(RawOf(e))
    ensures Concat(items) == EncodeAll(RawBytes, RawsOf(items))
    decreases |items|
  {
    if items != [] {
      ConcatIsEncoding(items[1..]);
      assert Fits(RawOf(items[0]));
      EntryIsEncoding(Flatten(items[0].vec), Payload(items[0].partition, items[0].id));
      assert RawsOf(items)[1..] == RawsOf(items[1..]);
    }
  }

  lemma EntryIsEncoding(vector: Bytes, payload: Bytes)
    requires Fits(Raw(vector, payload))
    ensures FieldBytes(vector, payload) == RawBytes(Raw(vector, payload))
  {
    assert vector[..|vector| % TWO_32] == vector;
    Associative(Prefix(vector), U32(|payload|), payload);
  }

  lemma RawsFit(items: seq<Item>)
    requires forall e <- items :: Fits(RawOf(e))
    ensures forall raw <- RawsOf(items) :: Fits(raw)
  {
    forall raw <- RawsOf(items) ensures Fits(raw) {
      var i :| 0 <= i < |items| && RawsOf(items)[i] == raw;
      assert items[i] in items;
    }
  }

  lemma ParseWritten(items: seq<Item>)
    requires forall e <- items :: Fits(RawOf(e))
    ensures Parse(Concat(items), |items|) == Parsed(RawsOf(items), None)
  {
    ConcatIsEncoding(items);
    RawsFit(items);
    ParseAll(RawsOf(items));
  }

  // ---------------------------------------------------------------- what is read

  function Expected(policy: Policy, e: Item): Verdict {
    if !TenantAllowed(policy, Mangle(e.partition)) then SkippedTenant
    else if |e.vec| != policy.dim then Corrupted
    else if policy.throws(Mangled(e)) then Refused(Mangled(e))
    else Restored(Mangled(e))
  }

  lemma JudgeWritten(policy: Policy, e: Item)
    ensures Judge(policy, RawOf(e)) == Expected(policy, e)
  {
    PartitionReadsBack(e.partition, e.id);
    IdReadsBack(e.partition, e.id);
    FloatsOfFlatten(e.vec);
  }

  function ExpectedAll(policy: Policy, items: seq<Item>): (verdicts: seq<Verdict>)
    ensures |verdicts| == |items| && forall i :: 0 <= i < |items| ==> verdicts[i] == Expected(policy, items[i])
  {
    if items == [] then [] else [Expected(policy, items[0])] + ExpectedAll(policy, items[1..])
  }

  lemma JudgeAllWritten(policy: Policy, items: seq<Item>)
    ensures JudgeAll(policy, RawsOf(items)) == ExpectedAll(policy, items)
  {
    forall i | 0 <= i < |items| ensures JudgeAll(policy, RawsOf(items))[i] == ExpectedAll(policy, items)[i] {
      JudgeWritten(policy, items[i]);
    }
  }

  lemma {:induction false} CallsAreReplayed(policy: Policy, t: Tally, items: seq<Item>)
    ensures CountAll(t, ExpectedAll(policy, items)).calls == t.calls + Replay(policy, items)
    ensures CountAll(t, ExpectedAll(policy, items)).read == t.read + |items|
    decreases |items|
  {
    if items != [] {
      assert ExpectedAll(policy, items)[1..] == ExpectedAll(policy, items[1..]);
      CallsAreReplayed(policy, Count(t, Expected(policy, items[0])), items[1..]);
      Associative(t.calls, if Returns(policy, items[0]) then [Mangled(items[0])] else [], Replay(policy, items[1..]));
    }
  }

  // ---------------------------------------------------------------- the file

  lemma Parts(a: Bytes, b: Bytes, c: Bytes, d: Bytes, e: Bytes)
    ensures var f := a + b + c + d + e;
            && f[..|a|] == a
            && f[|a|..|a| + |b|] == b
            && f[|a| + |b|..|a| + |b| + |c|] == c
            && f[|a| + |b| + |c|..|a| + |b| + |c| + |d|] == d
            && f[|a| + |b| + |c| + |d|..] == e
            && f[..|f| - |e|] == a + b + c + d
  {
  }

  lemma FileParts(dim: nat, count: nat, entries: Bytes, digest: Bytes)
    requires dim < TWO_32 && count < TWO_64 && |digest| == 32
    ensures var file := Header(dim, count) + entries + digest;
            && |file| >= 64
            && file[..|file| - 32] == Header(dim, count) + entries
            && file[|file| - 32..] == digest
            && file[..16] == MAGIC
            && FromLE(file[16..20]) == VERSION
            && FromLE(file[20..24]) == dim
            && FromLE(file[24..32]) == count
            && file[32..|file| - 32] == entries
  {
    var file := Header(dim, count) + entries + digest;
    assert |MAGIC| == 16;
    var a, b, c, d := MAGIC, U32(VERSION), U32(dim), U64(count);
    ReadU32(VERSION);
    ReadU32(dim);
    ReadU64(count);
    Parts(a, b, c, d, entries + digest);
    assert file == a + b + c + d + (entries + digest);
    Parts(a, b, c, d + entries, digest);
  }

  /** The outcome for a file that passes the checks. */
  lemma ChecksPassed(file: Bytes, sha: Bytes -> Bytes, policy: Policy, count: nat)
    requires |file| >= 64 && ChecksumOk(file, sha)
    requires file[..16] == MAGIC && FromLE(file[16..20]) == VERSION
    requires FromLE(file[20..24]) == policy.dim && FromLE(file[24..32]) == count
    ensures var parsed := Parse(file[32..|file| - 32], count);
            Restoration(file, sha, policy.allowlist, policy.throws)
            == Outcome(CountAll(NOTHING, JudgeAll(policy, parsed.items)), parsed.failure, true, true)
  {
  }

  lemma DumpPassesChecks(entries: seq<Item>, sha: Bytes -> Bytes, policy: Policy)
    requires Digests(sha) && Fitting(entries) && |Written(entries, 0)| <= |entries|
    requires policy.dim == FinalDim(entries, 0) == Dimension(entries)
    ensures var parsed := Parse(Concat(Written(entries, 0)), |Written(entries, 0)|);
            Restoration(File(entries, sha), sha, policy.allowlist, policy.throws)
            == Outcome(CountAll(NOTHING, JudgeAll(policy, parsed.items)), parsed.failure, true, true)
  {
    var count, bytes, hex := |Written(entries, 0)|, Concat(Written(entries, 0)), sha(Body(entries));
    DimensionFits(entries);
    FileParts(policy.dim, count, bytes, Unhex(hex));
    HexOfUnhex(hex);
    ChecksPassed(File(entries, sha), sha, policy, count);
  }

  lemma {:induction false} DimensionFits(entries: seq<Item>)
    requires Fitting(entries)
    ensures Dimension(entries) < TWO_32
    decreases |entries|
  {
    if entries != [] {
      assert Fits(RawOf(entries[0]));
      DimensionFits(entries[1..]);
    }
  }

  /** Restoring a dump passes every check, reads every written entry, and inserts, in the
      order of the enumeration, the entries of the common dimension that the allowlist lets
      through, their strings mangled where they hold unusual control bytes. */
  lemma RestoreOfDump(entries: seq<Item>, sha: Bytes -> Bytes, allowlist: seq<Bytes>, throws: Item -> bool)
    requires Digests(sha) && Fitting(entries)
    ensures var r := Restoration(File(entries, sha), sha, allowlist, throws);
            && r.checksumOk && r.versionOk && r.failure.None?
            && r.tally.read == |Written(entries, 0)|
            && r.tally.calls == Replay(Policy(Dimension(entries), allowlist, throws), entries)
  {
    var items := Written(entries, 0);
    var policy := Policy(Dimension(entries), allowlist, throws);
    FinalDimIsFirst(entries, 0);
    WrittenEnough(policy, entries, 0);
    WrittenAreEntries(entries, 0);
    DumpPassesChecks(entries, sha, policy);
    ParseWritten(items);
    JudgeAllWritten(policy, items);
    CallsAreReplayed(policy, NOTHING, items);
  }

  // ---------------------------------------------------------------- when nothing is lost

  ghost predicate Unchanged(dim: nat, e: Item) {
    |e.vec| == dim && Plain(e.partition) && Plain(e.id)
  }

  lemma {:induction false} ReplayIsIdentityIff(policy: Policy, entries: seq<Item>)
    requires policy.allowlist == []
    ensures |Replay(policy, entries)| <= |entries|
    ensures Replay(policy, entries) == entries <==> forall e <- entries :: Unchanged(policy.dim, e)
    decreases |entries|
  {
    if entries != [] {
      var e, rest := entries[0], entries[1..];
      ReplayIsIdentityIff(policy, rest);
      MangleIsIdentityIff(e.partition);
      MangleIsIdentityIff(e.id);
      assert entries == [e] + rest;
      if Returns(policy, e) {
        assert Replay(policy, entries)[0] == Mangled(e) && Replay(policy, entries)[1..] == Replay(policy, rest);
      }
      assert (forall x <- entries :: Unchanged(policy.dim, x))
             <==> Unchanged(policy.dim, e) && forall x <- rest :: Unchanged(policy.dim, x);
    }
  }

  /** A restore without an allowlist makes exactly the insert calls of the enumeration if
      and only if all vectors have one dimension and no string holds an unusual control
      byte. */
  lemma RoundTripIff(entries: seq<Item>, sha: Bytes -> Bytes, throws: Item -> bool)
    requires Digests(sha) && Fitting(entries)
    ensures Restoration(File(entries, sha), sha, [], throws).tally.calls == entries
            <==> forall e <- entries :: Unchanged(Dimension(entries), e)
  {
    RestoreOfDump(entries, sha, [], throws);
    ReplayIsIdentityIff(Policy(Dimension(entries), [], throws), entries);
  }

  // ---------------------------------------------------------------- the allowlist

  /** The entries of a dimension whose partitions belong to a listed tenant. */
  ghost function Listed(allowlist: seq<Bytes>, dim: nat, entries: seq<Item>): seq<Item> {
    if entries == [] then []
    else (if OnList(allowlist, Mangle(entries[0].partition)) && |entries[0].vec| == dim then [Mangled(entries[0])] else [])
         + Listed(allowlist, dim, entries[1..])
  }

  lemma {:induction false} ReplayIsListed(policy: Policy, entries: seq<Item>)
    ensures Replay(policy, entries) == Listed(policy.allowlist, policy.dim, entries)
    decreases |entries|
  {
    if entries != [] {
      AllowedIffOnList(policy, Mangle(entries[0].partition));
      ReplayIsListed(policy, entries[1..]);
    }
  }

  /** Restoring a dump with an allowlist makes exactly the insert calls of the entries whose
      partition is `tenant:t`, alone or followed by a bar and anything, for a listed tenant `t`,
      and of partitions without a tenant if the empty one is listed. */
  lemma RestoresListedTenants(entries: seq<Item>, sha: Bytes -> Bytes, allowlist: seq<Bytes>, throws: Item -> bool)
    requires Digests(sha) && Fitting(entries)
    ensures Restoration(File(entries, sha), sha, allowlist, throws).tally.calls
            == Listed(allowlist, Dimension(entries), entries)
  {
    RestoreOfDump(entries, sha, allowlist, throws);
    ReplayIsListed(Policy(Dimension(entries), allowlist, throws), entries);
  }

  lemma {:induction false} NoDigestIsListed(allowlist: seq<Bytes>, dim: nat, entries: seq<Item>)
    requires allowlist != [] && [] !in allowlist
    requires forall e <- entries :: |e.partition| == 64 && forall c <- e.partition :: LowerHex(c)
    ensures Listed(allowlist, dim, entries) == []
    decreases |entries|
  {
    if entries != [] {
      var p := entries[0].partition;
      MangleIsIdentityIff(p);
      assert p[0] in p && !("tenant:" <= p);
      forall t <- allowlist ensures !BelongsTo(p, t) {
        if OfTenant(p, t) {
          TenantStands(p, t);
          assert false;
        }
      }
      NoDigestIsListed(allowlist, dim, entries[1..]);
    }
  }

  /** Partitions named by a digest, as the cache names them, carry no tenant: restoring a
      dump of them with an allowlist of tenant names inserts nothing. */
  lemma DigestPartitionsAreSkipped(entries: seq<Item>, sha: Bytes -> Bytes, allowlist: seq<Bytes>, throws: Item -> bool)
    requires Digests(sha) && Fitting(entries) && allowlist != [] && [] !in allowlist
    requires forall e <- entries :: |e.partition| == 64 && forall c <- e.partition :: LowerHex(c)
    ensures Restoration(File(entries, sha), sha, allowlist, throws).tally.calls == []
  {
    RestoresListedTenants(entries, sha, allowlist, throws);
    NoDigestIsListed(allowlist, Dimension(entries), entries);
  }
}
