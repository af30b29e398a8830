/** The payload of a snapshot entry: a JSON object with a partition and an id, written by
    escaping and read back by scanning for the two known fields. */
module SnapshotPayload {
  import opened Bytes
  import opened Sequences
  import opened Wrappers

  const BACKSPACE: Byte := '\U{08}'
  const FORM_FEED: Byte := '\U{0C}'

  function HexDigit(n: nat): (c: Byte)
    requires n < 16
  {
    if n < 10 then ('0' as int + n) as char else ('a' as int + n - 10) as char
  }

  /** A control byte without a short escape. */
  predicate Unusual(c: Byte) {
    c as int < 0x20 && c !in {'\n', '\r', '\t', BACKSPACE, FORM_FEED}
  }

  function EscapeByte(c: Byte): Bytes {
    if c == '"' then "\\\""
    else if c == '\\' then "\\\\"
    else if c == '\n' then "\\n"
    else if c == '\r' then "\\r"
    else if c == '\t' then "\\t"
    else if c == BACKSPACE then "\\b"
    else if c == FORM_FEED then "\\f"
    else if c as int < 0x20 then ['\\', 'u', '0', '0', HexDigit(c as int / 16), HexDigit(c as int % 16)]
    else [c]
  }

  function Escape(s: Bytes): Bytes {
    if s == [] then [] else EscapeByte(s[0]) + Escape(s[1..])
  }

  lemma EscapeNext(out: Bytes, rest: Bytes)
    requires rest != []
    ensures out + Escape(rest) == (out + EscapeByte(rest[0])) + Escape(rest[1..])
  {
    Associative(out, EscapeByte(rest[0]), Escape(rest[1..]));
  }

  method EscapeJson(s: Bytes) returns (out: Bytes)
    ensures out == Escape(s)
  {
    out := [];
    ghost var rest := s;
    for i := 0 to |s|
      invariant rest == s[i..]
      invariant Escape(s) == out + Escape(rest)
    {
      EscapeNext(out, rest);
      out := out + EscapeByte(s[i]);
      rest := rest[1..];
    }
  }

  // ---------------------------------------------------------------- reading

  predicate Occurs(s: Bytes, needle: Bytes, i: nat) {
    i + |needle| <= |s| && s[i..i + |needle|] == needle
  }

  /** The first occurrence at or after `i`. */
  function Find(s: Bytes, needle: Bytes, i: nat): (r: Option<nat>)
    ensures r.Some? ==> i <= r.value && r.value + |needle| <= |s|
    decreases |s| - i
  {
    if Occurs(s, needle, i) then Some(i)
    else if i < |s| then Find(s, needle, i + 1)
    else None
  }

  lemma {:induction false} FindIsFirst(s: Bytes, needle: Bytes, i: nat)
    ensures var r := Find(s, needle, i);
            && (r.Some? ==> Occurs(s, needle, r.value) && forall j: nat | i <= j < r.value :: !Occurs(s, needle, j))
            && (r.None? ==> forall j: nat | i <= j :: !Occurs(s, needle, j))
    decreases |s| - i
  {
    if !Occurs(s, needle, i) && i < |s| {
      FindIsFirst(s, needle, i + 1);
    }
  }

  function Prepend(front: Bytes, rest: Option<Bytes>): Option<Bytes> {
    if rest.Some? then Some(front + rest.value) else None
  }

  function Unescaped(c: Byte): Byte {
    if c == 'n' then '\n'
    else if c == 'r' then '\r'
    else if c == 't' then '\t'
    else if c == 'b' then BACKSPACE
    else if c == 'f' then FORM_FEED
    else c
  }

  /** The value up to the first quote that is not escaped, if there is one. */
  function ReadValue(s: Bytes): Option<Bytes> {
    if s == [] then None
    else if s[0] == '\\' && |s| > 1 then Prepend([Unescaped(s[1])], ReadValue(s[2..]))
    else if s[0] == '"' then Some([])
    else Prepend([s[0]], ReadValue(s[1..]))
  }

  function Needle(key: Bytes): Bytes {
    "\"" + key + "\":\""
  }

  const COMMA: Bytes := "\","
  const CLOSE: Bytes := "\"}"

  function Payload(partition: Bytes, id: Bytes): Bytes {
    "{" + Needle("partition") + Escape(partition) + (COMMA + Needle("id") + Escape(id) + CLOSE)
  }

  function Field(payload: Bytes, key: Bytes): Option<Bytes> {
    var at := Find(payload, Needle(key), 0);
    if at.Some? then ReadValue(payload[at.value + |Needle(key)|..]) else None
  }

  method ExtractField(payload: Bytes, key: Bytes) returns (out: Option<Bytes>)
    ensures out == Field(payload, key)
  {
    var at := Find(payload, Needle(key), 0);
    if at.None? {
      return None;
    }
    var p := at.value + |Needle(key)|;
    var val: Bytes := [];
    PrependNothing(ReadValue(payload[p..]));
    while p < |payload|
      invariant p <= |payload|
      invariant Field(payload, key) == Prepend(val, ReadValue(payload[p..]))
    {
      var c := payload[p];
      if c == '\\' && p + 1 < |payload| {
        assert payload[p..][2..] == payload[p + 2..];
        PrependTwice(val, [Unescaped(payload[p + 1])], ReadValue(payload[p + 2..]));
        val := val + [Unescaped(payload[p + 1])];
        p := p + 2;
        continue;
      }
      if c == '"' {
        assert val + [] == val;
        return Some(val);
      }
      assert payload[p..][1..] == payload[p + 1..];
      PrependTwice(val, [c], ReadValue(payload[p + 1..]));
      val := val + [c];
      p := p + 1;
    }
    return None;
  }

  lemma PrependNothing(rest: Option<Bytes>)
    ensures Prepend([], rest) == rest
  {
    if rest.Some? {
      assert [] + rest.value == rest.value;
    }
  }

  lemma PrependTwice(a: Bytes, b: Bytes, rest: Option<Bytes>)
    ensures Prepend(a, Prepend(b, rest)) == Prepend(a + b, rest)
  {
    if rest.Some? {
      assert a + (b + rest.value) == (a + b) + rest.value;
    }
  }

  /** `tenant:abc|conv:1` belongs to `abc`; other forms belong to the empty tenant. */
  function Tenant(partition: Bytes): Bytes {
    var prefix: Bytes := "tenant:";
    if !(prefix <= partition) then []
    else
      var end := Find(partition, "|", |prefix|);
      partition[|prefix|..if end.Some? then end.value else |partition|]
  }

  /** A partition of tenant `t`: `tenant:t`, alone or followed by a bar and anything. */
  ghost predicate OfTenant(partition: Bytes, t: Bytes) {
    && '|' !in t
    && (|| partition == "tenant:" + t
        || exists rest: Bytes :: partition == "tenant:" + t + "|" + rest)
  }

  /** Only these partitions belong to `t`, and all others to the empty tenant. */
  ghost predicate BelongsTo(partition: Bytes, t: Bytes) {
    OfTenant(partition, t) || (t == [] && !("tenant:" <= partition))
  }

  lemma NoBarWithin(s: Bytes, from: nat, to: nat)
    requires from <= to <= |s| && forall j: nat | from <= j < to :: !Occurs(s, "|", j)
    ensures '|' !in s[from..to]
  {
    forall i | from <= i < to ensures s[i] != '|' {
      assert s[i..i + 1] == [s[i]];
      assert !Occurs(s, "|", i);
    }
  }

  lemma TenantOwns(partition: Bytes)
    ensures BelongsTo(partition, Tenant(partition))
  {
    var prefix: Bytes := "tenant:";
    if prefix <= partition {
      var t := Tenant(partition);
      FindIsFirst(partition, "|", |prefix|);
      var end := Find(partition, "|", |prefix|);
      if end.Some? {
        NoBarWithin(partition, |prefix|, end.value);
        assert partition[end.value..end.value + 1] == "|";
        assert partition == prefix + t + "|" + partition[end.value + 1..];
      } else {
        NoBarWithin(partition, |prefix|, |partition|);
        assert partition == prefix + t;
      }
    }
  }

  lemma TenantStands(partition: Bytes, t: Bytes)
    requires OfTenant(partition, t)
    ensures "tenant:" <= partition && 7 + |t| <= |partition| && partition[7..7 + |t|] == t
    ensures |partition| == 7 + |t| || partition[7 + |t|] == '|'
  {
    if partition != "tenant:" + t {
      var rest: Bytes :| partition == "tenant:" + t + "|" + rest;
    }
  }

  lemma NotLonger(partition: Bytes, t: Bytes, u: Bytes)
    requires OfTenant(partition, t) && OfTenant(partition, u)
    ensures |u| <= |t|
  {
    TenantStands(partition, t);
    TenantStands(partition, u);
    assert forall i | 0 <= i < |u| :: u[i] == partition[7..7 + |u|][i] == partition[7 + i];
  }

  lemma OneTenant(partition: Bytes, t: Bytes, u: Bytes)
    requires BelongsTo(partition, t) && BelongsTo(partition, u)
    ensures t == u
  {
    if OfTenant(partition, t) {
      TenantStands(partition, t);
    }
    if OfTenant(partition, u) {
      TenantStands(partition, u);
    }
    if OfTenant(partition, t) && OfTenant(partition, u) {
      NotLonger(partition, t, u);
      NotLonger(partition, u, t);
    }
  }

  /** The tenant that the code takes from a partition is the one it belongs to. */
  lemma TenantIff(partition: Bytes, t: Bytes)
    ensures Tenant(partition) == t <==> BelongsTo(partition, t)
  {
    TenantOwns(partition);
    if BelongsTo(partition, t) {
      OneTenant(partition, t, Tenant(partition));
    }
  }

  // ---------------------------------------------------------------- reading what was written

  /** What a byte reads back as: unusual control bytes lose the backslash of their escape. */
  function MangleByte(c: Byte): Bytes {
    if Unusual(c) then ['u', '0', '0', HexDigit(c as int / 16), HexDigit(c as int % 16)] else [c]
  }

  function Mangle(s: Bytes): Bytes {
    if s == [] then [] else MangleByte(s[0]) + Mangle(s[1..])
  }

  predicate Plain(s: Bytes) {
    forall c <- s :: !Unusual(c)
  }

  lemma ReadPlain(c: Byte, rest: Bytes)
    requires c != '"' && c != '\\'
    ensures ReadValue([c] + rest) == Prepend([c], ReadValue(rest))
  {
    assert ([c] + rest)[1..] == rest;
  }

  lemma ReadEscaped(c: Byte, rest: Bytes)
    ensures ReadValue(['\\', c] + rest) == Prepend([Unescaped(c)], ReadValue(rest))
  {
    assert (['\\', c] + rest)[2..] == rest;
  }

  lemma ReadTwo(x: Byte, y: Byte, rest: Bytes)
    requires x != '\\' && x != '"' && y != '\\' && y != '"'
    ensures ReadValue([x] + ([y] + rest)) == Prepend([x] + [y], ReadValue(rest))
  {
    ReadPlain(y, rest);
    ReadPlain(x, [y] + rest);
    PrependTwice([x], [y], ReadValue(rest));
  }

  lemma ReadUnusual(c: Byte, rest: Bytes)
    requires Unusual(c)
    ensures ReadValue(EscapeByte(c) + rest) == Prepend(MangleByte(c), ReadValue(rest))
  {
    var x, y := HexDigit(c as int / 16), HexDigit(c as int % 16);
    var digits := [x] + ([y] + rest);
    assert EscapeByte(c) + rest == ['\\', 'u'] + (['0'] + (['0'] + digits));
    ReadTwo(x, y, rest);
    ReadTwo('0', '0', digits);
    PrependTwice(['0'] + ['0'], [x] + [y], ReadValue(rest));
    ReadEscaped('u', ['0'] + (['0'] + digits));
    PrependTwice(['u'], (['0'] + ['0']) + ([x] + [y]), ReadValue(rest));
    assert ['u'] + ((['0'] + ['0']) + ([x] + [y])) == MangleByte(c);
  }

  lemma ReadEscapedByte(c: Byte, rest: Bytes)
    ensures ReadValue(EscapeByte(c) + rest) == Prepend(MangleByte(c), ReadValue(rest))
  {
    if Unusual(c) {
      ReadUnusual(c, rest);
    } else if |EscapeByte(c)| == 1 {
      ReadPlain(c, rest);
    } else {
      assert EscapeByte(c) == ['\\', EscapeByte(c)[1]];
      ReadEscaped(EscapeByte(c)[1], rest);
    }
  }

  lemma {:induction false} ReadEscape(s: Bytes, rest: Bytes)
    requires rest != [] && rest[0] == '"'
    ensures ReadValue(Escape(s) + rest) == Some(Mangle(s))
    decreases |s|
  {
    if s == [] {
      assert Escape(s) + rest == rest;
    } else {
      ReadEscape(s[1..], rest);
      assert Escape(s) + rest == EscapeByte(s[0]) + (Escape(s[1..]) + rest);
      ReadEscapedByte(s[0], Escape(s[1..]) + rest);
    }
  }

  lemma {:induction false} MangleIsIdentityIff(s: Bytes)
    ensures |Mangle(s)| >= |s|
    ensures Mangle(s) == s <==> Plain(s)
    decreases |s|
  {
    if s != [] {
      MangleIsIdentityIff(s[1..]);
      assert s == [s[0]] + s[1..];
      if !Unusual(s[0]) {
        assert Mangle(s)[1..] == Mangle(s[1..]);
        assert Plain(s) <==> Plain(s[1..]);
      } else {
        assert s[0] in s;
      }
    }
  }

  /** Escaped text never starts with a quote, and each quote in it follows a backslash. */
  lemma {:induction false} QuotesAreEscaped(s: Bytes, i: nat)
    requires i < |Escape(s)| && Escape(s)[i] == '"'
    ensures i > 0 && Escape(s)[i - 1] == '\\'
    decreases |s|
  {
    var first := EscapeByte(s[0]);
    assert Escape(s) == first + Escape(s[1..]);
    if i >= |first| {
      QuotesAreEscaped(s[1..], i - |first|);
    }
  }

  lemma OccursNot(s: Bytes, needle: Bytes, i: nat, k: nat)
    requires k < |needle| && (i + k < |s| ==> s[i + k] != needle[k])
    ensures !Occurs(s, needle, i)
  {
    if i + |needle| <= |s| {
      assert s[i..i + |needle|][k] == s[i + k];
    }
  }

  /** No place before the closing quote of the partition looks like the start of the id
      field; `open`, `rest` and `needle` are what surrounds the escaped partition. */
  lemma NoEarlierId(open: Bytes, partition: Bytes, rest: Bytes, needle: Bytes, j: nat)
    requires |open| == 14 && open[2] == 'p' && forall k | 0 <= k <= 10 && k != 1 :: open[k] != '"'
    requires |rest| > 2 && rest[0] == '"' && rest[1] == ','
    requires needle == ['"', 'i', 'd', '"', ':', '"']
    requires j < 14 + |Escape(partition)| + 2
    ensures !Occurs(open + Escape(partition) + rest, needle, j)
  {
    var e := Escape(partition);
    var p, end := open + e + rest, 14 + |e|;
    assert p[end] == '"' && p[end + 1] == ',';
    if j <= 10 {
      OccursNot(p, needle, j, if j == 1 then 1 else 0);
    } else if j + 3 < end {
      assert p[j + 3] == e[j + 3 - 14];
      if e[j + 3 - 14] == '"' {
        QuotesAreEscaped(partition, j + 3 - 14);
        assert p[j + 2] == e[j + 2 - 14];
        OccursNot(p, needle, j, 2);
      } else {
        OccursNot(p, needle, j, 3);
      }
    } else {
      OccursNot(p, needle, j, if j + 3 == end then 4 else if j < end then end - j else end + 1 - j);
    }
  }

  lemma FindIs(s: Bytes, needle: Bytes, at: nat)
    requires Occurs(s, needle, at) && forall j: nat | j < at :: !Occurs(s, needle, j)
    ensures Find(s, needle, 0) == Some(at)
  {
    FindIsFirst(s, needle, 0);
  }

  /** A field reads back when its needle does not occur earlier. */
  lemma ReadsBack(front: Bytes, key: Bytes, text: Bytes, rest: Bytes)
    requires rest != [] && rest[0] == '"'
    requires forall j: nat | j < |front| :: !Occurs(front + Needle(key) + (Escape(text) + rest), Needle(key), j)
    ensures Field(front + Needle(key) + (Escape(text) + rest), key) == Some(Mangle(text))
  {
    var needle := Needle(key);
    var p := front + needle + (Escape(text) + rest);
    FindIs(p, needle, |front|);
    assert p[|front| + |needle|..] == Escape(text) + rest;
    ReadEscape(text, rest);
  }

  lemma PartitionReadsBack(partition: Bytes, id: Bytes)
    ensures Field(Payload(partition, id), "partition") == Some(Mangle(partition))
  {
    var open: Bytes, needle, rest := "{", Needle("partition"), COMMA + Needle("id") + Escape(id) + CLOSE;
    assert open + needle + Escape(partition) + rest == open + needle + (Escape(partition) + rest);
    OccursNot(open + needle + (Escape(partition) + rest), needle, 0, 0);
    ReadsBack(open, "partition", partition, rest);
  }

  lemma IdReadsBack(partition: Bytes, id: Bytes)
    ensures Field(Payload(partition, id), "id") == Some(Mangle(id))
  {
    var open, e, needle := "{" + Needle("partition"), Escape(partition), Needle("id");
    var front, rest := open + e + COMMA, Escape(id) + CLOSE;
    var tail := COMMA + needle + Escape(id) + CLOSE;
    assert open + e + tail == front + needle + rest;
    forall j: nat | j < |front| ensures !Occurs(front + needle + rest, needle, j) {
      NoEarlierId(open, partition, tail, needle, j);
    }
    ReadsBack(front, "id", id, CLOSE);
  }
}
