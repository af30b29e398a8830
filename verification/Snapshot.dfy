/** Dump and restore of a vector store through a checksummed snapshot file. The file system
    is left out: a file is its bytes. SHA-256 is a parameter that returns hex digits. */
module Snapshot {
  import opened Bytes
  import opened Sequences
  import opened SnapshotPayload

  /** A float is its four bytes in memory. */
  type Float = f: Bytes | |f| == 4 witness "0000"

  datatype Item = Item(partition: Bytes, id: Bytes, vec: seq<Float>)

  const MAGIC: Bytes := "AGSCACHE\0\0\0\0\0\0\0\U{01}"
  const VERSION := 1

  // ---------------------------------------------------------------- vectors and digests

  function Flatten(vec: seq<Float>): (b: Bytes)
    ensures |b| == 4 * |vec|
  {
    if vec == [] then [] else vec[0] + Flatten(vec[1..])
  }

  function Floats(b: Bytes): (vec: seq<Float>)
    requires |b| % 4 == 0
    ensures |vec| == |b| / 4
  {
    if b == [] then [] else [b[..4]] + Floats(b[4..])
  }

  lemma {:induction false} FloatsOfFlatten(vec: seq<Float>)
    ensures Floats(Flatten(vec)) == vec
    decreases |vec|
  {
    if vec != [] {
      FloatsOfFlatten(vec[1..]);
      assert Flatten(vec)[..4] == vec[0] && Flatten(vec)[4..] == Flatten(vec[1..]);
    }
  }

  function HexValue(c: Byte): (v: nat)
    ensures v < 16
  {
    if '0' <= c <= '9' then c as int - '0' as int
    else if 'a' <= c <= 'f' then 10 + c as int - 'a' as int
    else if 'A' <= c <= 'F' then 10 + c as int - 'A' as int
    else 0
  }

  /** Digits of either case have their value. */
  lemma HexValueIs(d: nat)
    requires d < 16
    ensures HexValue("0123456789abcdef"[d]) == d && HexValue("0123456789ABCDEF"[d]) == d
  {
  }

  function HexPair(c: Byte): (hex: Bytes)
    ensures |hex| == 2
  {
    [HexDigit(c as int / 16 % 16), HexDigit(c as int % 16)]
  }

  function PairValue(high: Byte, low: Byte): Byte {
    ByteOf(16 * HexValue(high) + HexValue(low))
  }

  lemma PairOfValue(high: Byte, low: Byte)
    requires LowerHex(high) && LowerHex(low)
    ensures HexPair(PairValue(high, low)) == [high, low]
  {
    var h, l := HexValue(high), HexValue(low);
    var c := PairValue(high, low);
    assert c as int == 16 * h + l;
    assert c as int / 16 == h && c as int % 16 == l;
  }

  function Hex(data: Bytes): (out: Bytes)
    ensures |out| == 2 * |data|
  {
    if data == [] then [] else HexPair(data[0]) + Hex(data[1..])
  }

  function Unhex(hex: Bytes): (out: Bytes)
    requires |hex| % 2 == 0
    ensures |out| == |hex| / 2
  {
    if hex == [] then [] else [PairValue(hex[0], hex[1])] + Unhex(hex[2..])
  }

  method EncodeHex(data: Bytes) returns (out: Bytes)
    ensures out == Hex(data)
  {
    out := [];
    for i := 0 to |data|
      invariant Hex(data) == out + Hex(data[i..])
    {
      assert data[i..][1..] == data[i + 1..];
      out := out + HexPair(data[i]);
    }
    assert data[|data|..] == [];
  }

  lemma UnhexNext(out: Bytes, rest: Bytes)
    requires |rest| % 2 == 0 && |rest| > 0
    ensures out + Unhex(rest) == (out + [PairValue(rest[0], rest[1])]) + Unhex(rest[2..])
  {
  }

  method DecodeHex(hex: Bytes) returns (out: Bytes)
    requires |hex| % 2 == 0
    ensures out == Unhex(hex)
  {
    out := [];
    ghost var rest := hex;
    for i := 0 to |hex| / 2
      invariant |rest| == |hex| - 2 * i && rest == hex[2 * i..]
      invariant Unhex(hex) == out + Unhex(rest)
    {
      UnhexNext(out, rest);
      out := out + [PairValue(hex[2 * i], hex[2 * i + 1])];
      rest := rest[2..];
    }
  }

  predicate LowerHex(c: Byte) {
    '0' <= c <= '9' || 'a' <= c <= 'f'
  }

  lemma {:induction false} HexOfUnhex(hex: Bytes)
    requires |hex| % 2 == 0 && forall c <- hex :: LowerHex(c)
    ensures Hex(Unhex(hex)) == hex
    decreases |hex|
  {
    if hex != [] {
      HexOfUnhex(hex[2..]);
      PairOfValue(hex[0], hex[1]);
      assert Unhex(hex)[1..] == Unhex(hex[2..]);
      assert hex == [hex[0], hex[1]] + hex[2..];
    }
  }

  /** What is known of SHA-256: the digest is 64 lower-case hex digits. */
  ghost predicate Digests(sha: Bytes -> Bytes) {
    forall body :: |sha(body)| == 64 && forall c <- sha(body) :: LowerHex(c)
  }

  // ---------------------------------------------------------------- dump

  function Header(dim: nat, count: nat): (b: Bytes)
    ensures |b| == 32
  {
    MAGIC + U32(VERSION) + U32(dim) + U64(count)
  }

  /** The length fields hold 32 bits, and so many bytes of the vector are written. */
  function FieldBytes(vector: Bytes, payload: Bytes): Bytes {
    U32(|vector|) + vector[..|vector| % TWO_32] + U32(|payload|) + payload
  }

  function EntryBytes(e: Item): Bytes {
    FieldBytes(Flatten(e.vec), Payload(e.partition, e.id))
  }

  function Concat(items: seq<Item>): Bytes {
    if items == [] then [] else EntryBytes(items[0]) + Concat(items[1..])
  }

  /** The entries `dump` writes when the dimension is `dim` so far (0: not known). */
  function Written(entries: seq<Item>, dim: nat): seq<Item>
    decreases |entries|
  {
    if entries == [] then []
    else
      var size := |entries[0].vec| % TWO_32;
      if dim == 0 then [entries[0]] + Written(entries[1..], size)
      else if size != dim then Written(entries[1..], dim)
      else [entries[0]] + Written(entries[1..], dim)
  }

  function FinalDim(entries: seq<Item>, dim: nat): nat
    decreases |entries|
  {
    if entries == [] then dim
    else FinalDim(entries[1..], if dim == 0 then |entries[0].vec| % TWO_32 else dim)
  }

  function Body(entries: seq<Item>): Bytes {
    var items := Written(entries, 0);
    Header(FinalDim(entries, 0), |items|) + Concat(items)
  }

  function File(entries: seq<Item>, sha: Bytes -> Bytes): Bytes
    requires |sha(Body(entries))| == 64
  {
    Body(entries) + Unhex(sha(Body(entries)))
  }

  datatype DumpResult =
    | BadDigest
    | Dumped(file: Bytes, entriesWritten: nat, digestHex: Bytes)

  method Patch(s: Bytes, at: nat, value: Bytes) returns (r: Bytes)
    requires at + |value| <= |s|
    ensures r == s[..at] + value + s[at + |value|..]
  {
    r := s;
    for i := 0 to |value|
      invariant |r| == |s|
      invariant r == s[..at] + value[..i] + s[at + i..]
    {
      r := r[at + i := value[i]];
    }
  }

  lemma WrittenStep(entries: seq<Item>, dim: nat)
    requires entries != []
    ensures var e, size := entries[0], |entries[0].vec| % TWO_32;
            if dim != 0 && size != dim then
              Written(entries, dim) == Written(entries[1..], dim) && FinalDim(entries, dim) == FinalDim(entries[1..], dim)
            else
              && |Written(entries, dim)| == 1 + |Written(entries[1..], size)|
              && Concat(Written(entries, dim)) == EntryBytes(e) + Concat(Written(entries[1..], size))
              && FinalDim(entries, dim) == FinalDim(entries[1..], size)
  {
    var size := |entries[0].vec| % TWO_32;
    if dim == 0 || size == dim {
      assert Written(entries, dim)[1..] == Written(entries[1..], size);
    }
  }

  lemma OnlyLowBits(v: nat)
    ensures U32(v % TWO_32) == U32(v)
  {
    assert v % TWO_32 % TWO_32 == v % TWO_32;
  }

  method WriteEntry(e: Item) returns (out: Bytes)
    ensures out == EntryBytes(e)
  {
    var floats, vecBytes := Flatten(e.vec), (|e.vec| * 4) % TWO_32;
    OnlyLowBits(|floats|);
    out := U32(vecBytes) + floats[..vecBytes];
    var payload := BuildPayload(e.partition, e.id);
    out := out + U32(|payload|) + payload;
  }

  /** What is left to write of `entries`, given what has been written. */
  ghost predicate Progress(entries: seq<Item>, body: Bytes, dim: nat, count: nat, rest: seq<Item>) {
    && Concat(Written(entries, 0)) == body + Concat(Written(rest, dim))
    && |Written(entries, 0)| == count + |Written(rest, dim)|
    && FinalDim(entries, 0) == FinalDim(rest, dim)
  }

  lemma ProgressNext(entries: seq<Item>, body: Bytes, dim: nat, count: nat, rest: seq<Item>)
    requires rest != [] && Progress(entries, body, dim, count, rest)
    ensures var size := |rest[0].vec| % TWO_32;
            if dim != 0 && size != dim then Progress(entries, body, dim, count, rest[1..])
            else Progress(entries, body + EntryBytes(rest[0]), size, count + 1, rest[1..])
  {
    WrittenStep(rest, dim);
    Associative(body, EntryBytes(rest[0]), Concat(Written(rest[1..], |rest[0].vec| % TWO_32)));
  }

  method WriteEntries(entries: seq<Item>) returns (body: Bytes, dim: nat, count: nat)
    ensures body == Concat(Written(entries, 0)) && dim == FinalDim(entries, 0) && count == |Written(entries, 0)|
  {
    body, dim, count := [], 0, 0;
    ghost var rest := entries;
    for i := 0 to |entries|
      invariant rest == entries[i..]
      invariant Progress(entries, body, dim, count, rest)
    {
      var e := entries[i];
      ProgressNext(entries, body, dim, count, rest);
      rest := rest[1..];
      if dim == 0 {
        dim := |e.vec| % TWO_32;
      } else if |e.vec| % TWO_32 != dim {
        continue;
      }
      var bytes := WriteEntry(e);
      body := body + bytes;
      count := count + 1;
    }
  }

  /** `entries` is what the store enumerates; a store that cannot enumerate yields none. */
  method Dump(entries: seq<Item>, sha: Bytes -> Bytes) returns (r: DumpResult)
    ensures r.BadDigest? <==> |sha(Body(entries))| != 64
    ensures r.Dumped? ==> r.file == File(entries, sha)
    ensures r.Dumped? ==> r.entriesWritten == |Written(entries, 0)| && r.digestHex == sha(Body(entries))
  {
    var body, dim, count := WriteEntries(entries);
    var serialized := MAGIC + U32(VERSION) + U32(0) + U64(0) + body;
    serialized := Patch(serialized, 20, U32(dim));
    serialized := Patch(serialized, 24, U64(count));
    Patched(MAGIC + U32(VERSION), U32(0), U64(0), body, U32(dim), U64(count));
    var digest := sha(serialized);
    if |digest| != 64 {
      return BadDigest;
    }
    var tail := DecodeHex(digest);
    return Dumped(serialized + tail, count, digest);
  }

  lemma Patched(head: Bytes, x: Bytes, y: Bytes, body: Bytes, dim: Bytes, count: Bytes)
    requires |x| == |dim| && |y| == |count|
    ensures var s, at := head + x + y + body, |head|;
            var t := s[..at] + dim + s[at + |dim|..];
            t[..at + |dim|] + count + t[at + |dim| + |count|..] == head + dim + count + body
  {
  }

  method BuildPayload(partition: Bytes, id: Bytes) returns (s: Bytes)
    ensures s == Payload(partition, id)
  {
    var p := EscapeJson(partition);
    var i := EscapeJson(id);
    s := "{" + Needle("partition") + p + (COMMA + Needle("id") + i + CLOSE);
  }
}
