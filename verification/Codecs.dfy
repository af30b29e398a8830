/** The base64url and base32 codecs and the capped base64 decoder. Each loop keeps a few
    bits in a 32-bit accumulator that wraps; the reference regroups one long bit string, as
    sections 4 to 6 of RFC 4648 describe. */
module Codecs {
  import opened BitStream
  import opened Wrappers

  predicate Octets(bytes: seq<nat>) {
    forall i :: 0 <= i < |bytes| ==> bytes[i] < 256
  }

  lemma Sizes()
    ensures Pow2(5) == 32 && Pow2(6) == 64 && Pow2(8) == 256
  {
  }

  lemma OctetsFit(bytes: seq<nat>)
    requires Octets(bytes)
    ensures Fit(bytes, 8)
  {
    assert Pow2(8) == 256;
  }

  /** A signed 32-bit integer after overflow. */
  function Wrap32(x: int): int {
    (x + 0x8000_0000) % WORD - 0x8000_0000
  }

  lemma Wrap32Congruent(x: int)
    ensures Wrap32(x) % WORD == x % WORD
  {
  }

  // ---------------------------------------------------------------- base64url

  /** The alphabet `A`-`Z`, `a`-`z`, `0`-`9`, `+`, `/`. */
  function Char64(d: nat): char
    requires d < 64
  {
    if d < 26 then ('A' as int + d) as char
    else if d < 52 then ('a' as int + d - 26) as char
    else if d < 62 then ('0' as int + d - 52) as char
    else if d == 62 then '+'
    else '/'
  }

  const ALPHABET64 := "ABCDEFGHIJKLMNOPQRSTUVWXYZ" + "abcdefghijklmnopqrstuvwxyz" + "0123456789+/"
  const ALPHABET_URL := "ABCDEFGHIJKLMNOPQRSTUVWXYZ" + "abcdefghijklmnopqrstuvwxyz" + "0123456789-_"

  /** Table 1 of RFC 4648. */
  lemma Char64IsStandard(d: nat)
    requires d < 64
    ensures |ALPHABET64| == 64 && Char64(d) == ALPHABET64[d]
  {
  }

  function Value64(c: char): Option<nat> {
    if 'A' <= c <= 'Z' then Some(c as int - 'A' as int)
    else if 'a' <= c <= 'z' then Some(c as int - 'a' as int + 26)
    else if '0' <= c <= '9' then Some(c as int - '0' as int + 52)
    else if c == '+' then Some(62)
    else if c == '/' then Some(63)
    else None
  }

  lemma Value64Iff(c: char)
    ensures Value64(c).Some? <==> c in ALPHABET64
    ensures Value64(c).Some? ==> Value64(c).value < 64 && ALPHABET64[Value64(c).value] == c
  {
    if Value64(c).Some? {
      var d := Value64(c).value;
      assert Char64(d) == c;
      Char64IsStandard(d);
    } else {
      forall d: nat | d < 64 ensures ALPHABET64[d] != c {
        Char64IsStandard(d);
      }
    }
  }

  function ToUrl(c: char): char {
    if c == '+' then '-' else if c == '/' then '_' else c
  }

  lemma CharUrlIsStandard(d: nat)
    requires d < 64
    ensures |ALPHABET_URL| == 64 && ToUrl(Char64(d)) == ALPHABET_URL[d]
  {
  }

  function FromUrl(c: char): char {
    if c == '-' then '+' else if c == '_' then '/' else c
  }

  predicate Digits64(ds: seq<nat>) {
    forall i :: 0 <= i < |ds| ==> ds[i] < 64
  }

  function Chars64(ds: seq<nat>): (text: string)
    requires Digits64(ds)
    ensures |text| == |ds|
  {
    seq(|ds|, i requires 0 <= i < |ds| => Char64(ds[i]))
  }

  function Map(f: char -> char, text: string): (r: string)
    ensures |r| == |text|
  {
    seq(|text|, i requires 0 <= i < |text| => f(text[i]))
  }

  lemma FitsIn64(ds: seq<nat>)
    ensures Fit(ds, 6) <==> Digits64(ds)
  {
    assert Pow2(6) == 64;
  }

  /** The digits of `w` bits each of a byte string. */
  function Regroup(input: seq<nat>, w: nat): seq<nat>
    requires w > 0
  {
    Pack(Padded(Unpack(input, 8), w), w)
  }

  lemma RegroupFits(input: seq<nat>, w: nat)
    requires w > 0
    ensures Fit(Regroup(input, w), w)
  {
    PaddedFits(|Unpack(input, 8)|, w);
    UnpackPack(Padded(Unpack(input, 8), w), w);
  }

  ghost function Base64Url(input: seq<nat>): string {
    var ds := Regroup(input, 6);
    RegroupFits(input, 6);
    FitsIn64(ds);
    Map(ToUrl, Chars64(ds))
  }

  /** The digits up to the first `=`; nothing when another character comes first. */
  function DigitsUrl(text: string): Option<seq<nat>> {
    if text == [] || text[0] == '=' then Some([])
    else
      var d, rest := Value64(text[0]), DigitsUrl(text[1..]);
      if d.None? || rest.None? then None else Some([d.value] + rest.value)
  }

  function Base64UrlBytes(text: string): seq<nat> {
    var ds := DigitsUrl(Map(FromUrl, text));
    if ds.None? then [] else Pack(Unpack(ds.value, 6), 8)
  }

  lemma UnpackNext(input: seq<nat>, i: nat, w: nat)
    requires i < |input|
    ensures Unpack(input[..i + 1], w) == Unpack(input[..i], w) + ToBits(input[i], w)
  {
    assert input[..i + 1] == input[..i] + [input[i]];
    UnpackSum(input[..i], [input[i]], w);
    UnpackOne(input[i], w);
  }

  lemma CharsNext(ds: seq<nat>, d: nat)
    requires Digits64(ds) && d < 64
    ensures Chars64(ds + [d]) == Chars64(ds) + [Char64(d)]
  {
  }

  /** A digit of `v` bits enters the accumulator; `size` is 2^v. */
  lemma DigitIn(acc: int, next: int, all: Bits, ds: seq<nat>, w: nat, pending: Bits, d: nat, v: nat, size: nat)
    requires Holds(acc, pending) && Regrouped(all, ds, w, pending)
    requires size == Pow2(v) && d < size && |pending| + v <= 32 && next % WORD == (acc * size + d) % WORD
    ensures Holds(next, pending + ToBits(d, v)) && Regrouped(all + ToBits(d, v), ds, w, pending + ToBits(d, v))
  {
    ShiftIn(acc, pending, d, v, next);
    Grow(all, ds, w, pending, ToBits(d, v));
  }

  lemma DigitInUnsigned(acc: int, all: Bits, ds: seq<nat>, w: nat, pending: Bits, d: nat, v: nat, size: nat)
    requires Holds(acc, pending) && Regrouped(all, ds, w, pending)
    requires size == Pow2(v) && d < size && |pending| + v <= 32
    ensures Holds((acc * size + d) % WORD, pending + ToBits(d, v))
    ensures Regrouped(all + ToBits(d, v), ds, w, pending + ToBits(d, v))
  {
    DigitIn(acc, (acc * size + d) % WORD, all, ds, w, pending, d, v, size);
  }

  lemma DigitInSigned(acc: int, all: Bits, ds: seq<nat>, w: nat, pending: Bits, d: nat, v: nat, size: nat)
    requires Holds(acc, pending) && Regrouped(all, ds, w, pending)
    requires size == Pow2(v) && d < size && |pending| + v <= 32
    ensures Holds(Wrap32(acc * size + d), pending + ToBits(d, v))
    ensures Regrouped(all + ToBits(d, v), ds, w, pending + ToBits(d, v))
  {
    Wrap32Congruent(acc * size + d);
    DigitIn(acc, Wrap32(acc * size + d), all, ds, w, pending, d, v, size);
  }

  /** A digit leaves the accumulator. */
  lemma DigitOut(acc: int, all: Bits, ds: seq<nat>, w: nat, pending: Bits, d: nat)
    requires Holds(acc, pending) && Regrouped(all, ds, w, pending) && w <= |pending|
    requires d == (acc / Pow2(|pending| - w)) % Pow2(w)
    ensures Holds(acc, pending[w..]) && Regrouped(all, ds + [d], w, pending[w..])
  {
    ShiftOut(acc, pending, w);
    Emit(all, ds, w, pending);
  }

  /** The last digit, filled up with zero bits. */
  lemma LastDigit(acc: int, next: int, all: Bits, ds: seq<nat>, w: nat, pending: Bits, d: nat)
    requires Holds(acc, pending) && Regrouped(all, ds, w, pending) && 0 < |pending| < w <= 32
    requires next % WORD == (acc * Pow2(w - |pending|)) % WORD && d == next % Pow2(w)
    ensures Pack(Padded(all, w), w) == ds + [d]
  {
    var z := w - |pending|;
    PaddingDue(all, ds, w, pending);
    ZeroBits(z);
    DigitIn(acc, next, all, ds, w, pending, 0, z, Pow2(z));
    var full := pending + Zeros(z);
    assert full[..w] == full;
    Emit(all + Zeros(z), ds, w, full);
    Finished(all + Zeros(z), ds + [d], w, full[w..]);
  }

  lemma NoLastDigit(all: Bits, ds: seq<nat>, w: nat)
    requires w > 0 && Regrouped(all, ds, w, [])
    ensures Pack(Padded(all, w), w) == ds
  {
    PaddingDue(all, ds, w, []);
    assert Padded(all, w) == all;
    Finished(all, ds, w, []);
  }

  /** The loop state of the base64url encoder after the bits `all`. */
  ghost predicate Encoding64(all: Bits, val: int, bits: int, out: string, ds: seq<nat>, pending: Bits) {
    && |pending| == bits + 6
    && Holds(val, pending)
    && Regrouped(all, ds, 6, pending)
    && Digits64(ds)
    && out == Chars64(ds)
  }

  /** The inner loop: whole digits leave the accumulator. */
  method Drain64(val: int, bits0: int, out0: string, ghost all: Bits, ghost ds0: seq<nat>, ghost pending0: Bits)
    returns (bits: int, out: string, ghost ds: seq<nat>, ghost pending: Bits)
    requires Encoding64(all, val, bits0, out0, ds0, pending0)
    ensures Encoding64(all, val, bits, out, ds, pending) && bits < 0
  {
    bits, out, ds, pending := bits0, out0, ds0, pending0;
    Sizes();
    while bits >= 0
      invariant Encoding64(all, val, bits, out, ds, pending)
    {
      var d: nat := (val / Pow2(bits)) % 64;
      DigitOut(val, all, ds, 6, pending, d);
      CharsNext(ds, d);
      out := out + [Char64(d)];
      bits := bits - 6;
      ds, pending := ds + [d], pending[6..];
    }
  }

  lemma ByteIn64(all: Bits, val: int, bits: int, out: string, ds: seq<nat>, pending: Bits, c: nat)
    requires Encoding64(all, val, bits, out, ds, pending) && bits < 0 && c < 256
    ensures Encoding64(all + ToBits(c, 8), (val * 256 + c) % WORD, bits + 8, out, ds, pending + ToBits(c, 8))
  {
    Sizes();
    DigitInUnsigned(val, all, ds, 6, pending, c, 8, 256);
  }

  /** The last, incomplete digit. */
  method Flush64(val: int, bits: int, out0: string, ghost all: Bits, ghost ds0: seq<nat>, ghost pending: Bits)
    returns (out: string, ghost ds: seq<nat>)
    requires Encoding64(all, val, bits, out0, ds0, pending) && bits < 0
    ensures Digits64(ds) && out == Chars64(ds) && ds == Pack(Padded(all, 6), 6)
  {
    out, ds := out0, ds0;
    Sizes();
    if bits > -6 {
      var shifted := (val * Pow2(-bits)) % WORD;
      var d: nat := shifted % 64;
      LastDigit(val, shifted, all, ds, 6, pending, d);
      CharsNext(ds, d);
      out := out + [Char64(d)];
      ds := ds + [d];
    } else {
      NoLastDigit(all, ds, 6);
    }
  }

  /** The source then trims trailing `=`, of which there are none. */
  method Base64UrlEncode(input: seq<nat>) returns (out: string)
    requires Octets(input)
    ensures out == Base64Url(input)
  {
    out := "";
    var val, bits := 0, -6;
    ghost var ds: seq<nat>, pending: Bits := [], [];
    for i := 0 to |input|
      invariant bits < 0 && Encoding64(Unpack(input[..i], 8), val, bits, out, ds, pending)
    {
      var c := input[i];
      UnpackNext(input, i, 8);
      ByteIn64(Unpack(input[..i], 8), val, bits, out, ds, pending, c);
      val := (val * 256 + c) % WORD;
      bits := bits + 8;
      bits, out, ds, pending := Drain64(val, bits, out, Unpack(input[..i + 1], 8), ds, pending + ToBits(c, 8));
    }
    assert input[..|input|] == input;
    out, ds := Flush64(val, bits, out, Unpack(input, 8), ds, pending);
    out := ReplaceAll(ToUrl, out);
  }

  /** Rewrites a string character by character. */
  method ReplaceAll(f: char -> char, text: string) returns (r: string)
    ensures r == Map(f, text)
  {
    r := text;
    for i := 0 to |r|
      invariant |r| == |text|
      invariant forall j :: 0 <= j < i ==> r[j] == f(text[j])
      invariant forall j :: i <= j < |r| ==> r[j] == text[j]
    {
      r := r[i := f(r[i])];
    }
  }

  lemma {:induction false} PaddingIsIgnored(text: string)
    ensures DigitsUrl(text + "=") == DigitsUrl(text)
    decreases |text|
  {
    if text != [] {
      assert (text + "=")[1..] == text[1..] + "=";
      PaddingIsIgnored(text[1..]);
    }
  }

  /** The loop state of a codec after the bits `all`: `ds` have come out, `count` bits have
      not. */
  ghost predicate Midway(all: Bits, acc: int, count: int, ds: seq<nat>, w: nat, pending: Bits) {
    |pending| == count && Holds(acc, pending) && Regrouped(all, ds, w, pending)
  }

  /** A shifted accumulator in 32 bits, signed or unsigned. */
  function Shifted(acc: int, size: nat, d: nat, signed: bool): int {
    if signed then Wrap32(acc * size + d) else (acc * size + d) % WORD
  }

  lemma Push(all: Bits, acc: int, count: int, ds: seq<nat>, w: nat, pending: Bits, d: nat, v: nat, size: nat, signed: bool)
    requires Midway(all, acc, count, ds, w, pending) && count + v <= 32 && size == Pow2(v) && d < size
    ensures Midway(all + ToBits(d, v), Shifted(acc, size, d, signed), count + v, ds, w, pending + ToBits(d, v))
  {
    if signed {
      DigitInSigned(acc, all, ds, w, pending, d, v, size);
    } else {
      DigitInUnsigned(acc, all, ds, w, pending, d, v, size);
    }
  }

  lemma Pop(all: Bits, acc: int, count: int, ds: seq<nat>, w: nat, pending: Bits, d: nat)
    requires Midway(all, acc, count, ds, w, pending) && w <= count && d == (acc / Pow2(count - w)) % Pow2(w)
    ensures Midway(all, acc, count - w, ds + [d], w, pending[w..])
  {
    DigitOut(acc, all, ds, w, pending, d);
  }

  lemma UnpackLast(ds: seq<nat>, d: nat, w: nat)
    ensures Unpack(ds + [d], w) == Unpack(ds, w) + ToBits(d, w)
  {
    UnpackSum(ds, [d], w);
    UnpackOne(d, w);
  }

  /** One round of a decoder: a digit of `w` bits enters the accumulator, and a byte
      leaves it when eight bits are there. */
  method TakeDigit(acc0: int, count0: int, out0: seq<nat>, d: nat, w: nat, size: nat, signed: bool,
                   ghost ds: seq<nat>, ghost pending0: Bits)
    returns (acc: int, count: int, out: seq<nat>, ghost pending: Bits)
    requires Midway(Unpack(ds, w), acc0, count0, out0, 8, pending0) && count0 < 8
    requires w <= 8 && size == Pow2(w) && d < size
    ensures Midway(Unpack(ds + [d], w), acc, count, out, 8, pending) && count < 8
    ensures |out| <= |out0| + 1
  {
    UnpackLast(ds, d, w);
    Push(Unpack(ds, w), acc0, count0, out0, 8, pending0, d, w, size, signed);
    acc, count, out, pending := Shifted(acc0, size, d, signed), count0 + w, out0, pending0 + ToBits(d, w);
    Sizes();
    if count >= 8 {
      count := count - 8;
      var byte: nat := (acc / Pow2(count)) % 256;
      Pop(Unpack(ds + [d], w), acc, count + 8, out, 8, pending, byte);
      out := out + [byte];
      pending := pending[8..];
    }
  }

  /** The source counts `bits` from -8: `count` here is `bits + 8`. */
  method PadToFour(s: string) returns (padded: string)
    ensures |padded| % 4 == 0 && DigitsUrl(padded) == DigitsUrl(s)
  {
    padded := s;
    while |padded| % 4 != 0
      invariant DigitsUrl(padded) == DigitsUrl(s)
      decreases 3 - (|padded| - 1) % 4
    {
      PaddingIsIgnored(padded);
      padded := padded + "=";
    }
  }

  method Base64UrlDecode(input: string) returns (out: seq<nat>)
    ensures out == Base64UrlBytes(input)
  {
    var b64 := ReplaceAll(FromUrl, input);
    ghost var expected := DigitsUrl(b64);
    b64 := PadToFour(b64);
    out := [];
    var val, count, i := 0, 0, 0;
    ghost var ds: seq<nat>, pending: Bits := [], [];
    Sizes();
    JoinedNone(DigitsUrl(b64));
    assert b64[0..] == b64;
    while i < |b64| && b64[i] != '='
      invariant 0 <= i <= |b64|
      invariant Midway(Unpack(ds, 6), val, count, out, 8, pending) && count < 8
      invariant expected == Joined(ds, DigitsUrl(b64[i..]))
    {
      var d := Value64(b64[i]);
      UrlNext(b64, i, ds);
      if d.None? {
        return [];
      }
      val, count, out, pending := TakeDigit(val, count, out, d.value, 6, 64, false, ds, pending);
      ds := ds + [d.value];
      i := i + 1;
    }
    UrlEnd(b64, i, ds);
    Finished(Unpack(ds, 6), out, 8, pending);
  }

  function Joined(ds: seq<nat>, rest: Option<seq<nat>>): Option<seq<nat>> {
    if rest.None? then None else Some(ds + rest.value)
  }

  lemma JoinedNone(rest: Option<seq<nat>>)
    ensures Joined([], rest) == rest
  {
    if rest.Some? {
      assert [] + rest.value == rest.value;
    }
  }

  lemma JoinedNext(ds: seq<nat>, d: nat, rest: Option<seq<nat>>)
    ensures Joined(ds, Joined([d], rest)) == Joined(ds + [d], rest)
  {
    if rest.Some? {
      assert ds + ([d] + rest.value) == (ds + [d]) + rest.value;
    }
  }

  lemma UrlNext(text: string, i: nat, ds: seq<nat>)
    requires i < |text| && text[i] != '='
    ensures var d := Value64(text[i]);
            Joined(ds, DigitsUrl(text[i..]))
            == if d.None? then None else Joined(ds + [d.value], DigitsUrl(text[i + 1..]))
  {
    assert text[i..][1..] == text[i + 1..];
    if Value64(text[i]).Some? {
      JoinedNext(ds, Value64(text[i]).value, DigitsUrl(text[i + 1..]));
    }
  }

  lemma UrlEnd(text: string, i: nat, ds: seq<nat>)
    requires i == |text| || (i < |text| && text[i] == '=')
    ensures Joined(ds, DigitsUrl(text[i..])) == Some(ds)
  {
    assert ds + [] == ds;
  }

  lemma {:induction false} DigitsOfChars(ds: seq<nat>)
    requires Digits64(ds)
    ensures DigitsUrl(Chars64(ds)) == Some(ds)
    decreases |ds|
  {
    if ds != [] {
      assert Chars64(ds)[1..] == Chars64(ds[1..]);
      DigitsOfChars(ds[1..]);
      assert ds == [ds[0]] + ds[1..];
    }
  }

  /** The encoded text spells the digits in the URL alphabet, without padding. */
  lemma Base64UrlSpells(input: seq<nat>, i: nat)
    requires i < |Regroup(input, 6)|
    ensures |Base64Url(input)| == |Regroup(input, 6)| && |ALPHABET_URL| == 64
    ensures Regroup(input, 6)[i] < 64 && Base64Url(input)[i] == ALPHABET_URL[Regroup(input, 6)[i]]
  {
    RegroupFits(input, 6);
    FitsIn64(Regroup(input, 6));
    CharUrlIsStandard(Regroup(input, 6)[i]);
  }

  /** Some character before the first `=` is outside the alphabet. */
  ghost predicate Foreign(text: string) {
    exists i :: 0 <= i < |text| && text[i] != '=' && Value64(text[i]).None? && '=' !in text[..i]
  }

  /** Exactly such a text is refused. */
  lemma {:induction false} RefusedIffForeign(text: string)
    ensures DigitsUrl(text).None? <==> Foreign(text)
  {
    if text != [] && text[0] != '=' && Value64(text[0]).Some? {
      var rest := text[1..];
      RefusedIffForeign(rest);
      if Foreign(rest) {
        var i :| 0 <= i < |rest| && rest[i] != '=' && Value64(rest[i]).None? && '=' !in rest[..i];
        assert text[..i + 1] == [text[0]] + rest[..i];
        assert text[i + 1] == rest[i];
      }
      if Foreign(text) {
        var i :| 0 <= i < |text| && text[i] != '=' && Value64(text[i]).None? && '=' !in text[..i];
        assert text[..i] == [text[0]] + rest[..i - 1];
        assert rest[i - 1] == text[i];
      }
    } else if text != [] && text[0] != '=' {
      assert '=' !in text[..0];
    }
  }

  /** Decoding undoes encoding. */
  lemma Base64UrlRoundTrip(input: seq<nat>)
    requires Octets(input)
    ensures Base64UrlBytes(Base64Url(input)) == input
  {
    var ds := Regroup(input, 6);
    RegroupFits(input, 6);
    FitsIn64(ds);
    assert Map(FromUrl, Map(ToUrl, Chars64(ds))) == Chars64(ds);
    DigitsOfChars(ds);
    OctetsFit(input);
    RegroupingUndone(input, 8, 6);
  }

  // ---------------------------------------------------------------- base32

  /** The alphabet `A`-`Z`, `2`-`7`. */
  function Char32(d: nat): char
    requires d < 32
  {
    if d < 26 then ('A' as int + d) as char else ('2' as int + d - 26) as char
  }

  const ALPHABET32 := "ABCDEFGHIJKLMNOPQRSTUVWXYZ" + "234567"

  /** Table 3 of RFC 4648. */
  lemma Char32IsStandard(d: nat)
    requires d < 32
    ensures |ALPHABET32| == 32 && Char32(d) == ALPHABET32[d]
  {
  }

  function Upper(c: char): char {
    if 'a' <= c <= 'z' then (c as int - 'a' as int + 'A' as int) as char else c
  }

  function Value32(c: char): (d: Option<nat>)
    ensures d.Some? ==> d.value < 32
  {
    var upper := Upper(c);
    if 'A' <= upper <= 'Z' then Some(upper as int - 'A' as int)
    else if '2' <= upper <= '7' then Some(upper as int - '2' as int + 26)
    else None
  }

  predicate Digits32(ds: seq<nat>) {
    forall i :: 0 <= i < |ds| ==> ds[i] < 32
  }

  function Chars32(ds: seq<nat>): (text: string)
    requires Digits32(ds)
    ensures |text| == |ds|
  {
    seq(|ds|, i requires 0 <= i < |ds| => Char32(ds[i]))
  }

  ghost function Base32(input: seq<nat>): string {
    var ds := Regroup(input, 5);
    RegroupFits(input, 5);
    Sizes();
    Chars32(ds)
  }

  /** The digits of a text; characters outside the alphabet are skipped. */
  function Digits32Of(text: string): seq<nat> {
    if text == [] then []
    else (if Value32(text[0]).Some? then [Value32(text[0]).value] else []) + Digits32Of(text[1..])
  }

  function Base32Bytes(text: string): seq<nat> {
    Pack(Unpack(Digits32Of(text), 5), 8)
  }

  /** The inner loop of the encoder. */
  method Drain32(acc: int, count0: int, out0: string, ghost all: Bits, ghost ds0: seq<nat>, ghost pending0: Bits)
    returns (count: int, out: string, ghost ds: seq<nat>, ghost pending: Bits)
    requires Midway(all, acc, count0, ds0, 5, pending0) && Digits32(ds0) && out0 == Chars32(ds0)
    ensures Midway(all, acc, count, ds, 5, pending) && Digits32(ds) && out == Chars32(ds) && count < 5
  {
    count, out, ds, pending := count0, out0, ds0, pending0;
    Sizes();
    while count >= 5
      invariant Midway(all, acc, count, ds, 5, pending) && Digits32(ds) && out == Chars32(ds)
    {
      var d: nat := (acc / Pow2(count - 5)) % 32;
      Pop(all, acc, count, ds, 5, pending, d);
      count := count - 5;
      out := out + [Char32(d)];
      ds, pending := ds + [d], pending[5..];
    }
  }

  method Base32Encode(data: seq<nat>) returns (result: string)
    requires Octets(data)
    ensures result == Base32(data)
  {
    result := "";
    var buffer, bitsLeft := 0, 0;
    ghost var ds: seq<nat>, pending: Bits := [], [];
    Sizes();
    for i := 0 to |data|
      invariant Midway(Unpack(data[..i], 8), buffer, bitsLeft, ds, 5, pending) && bitsLeft < 5
      invariant Digits32(ds) && result == Chars32(ds)
    {
      var byte := data[i];
      UnpackNext(data, i, 8);
      Push(Unpack(data[..i], 8), buffer, bitsLeft, ds, 5, pending, byte, 8, 256, true);
      buffer := Wrap32(buffer * 256 + byte);
      bitsLeft := bitsLeft + 8;
      bitsLeft, result, ds, pending := Drain32(buffer, bitsLeft, result, Unpack(data[..i + 1], 8), ds, pending + ToBits(byte, 8));
    }
    assert data[..|data|] == data;
    result := Flush32(buffer, bitsLeft, result, Unpack(data, 8), ds, pending);
  }

  method Flush32(buffer: int, bitsLeft: int, out: string, ghost all: Bits, ghost ds: seq<nat>, ghost pending: Bits)
    returns (result: string)
    requires Midway(all, buffer, bitsLeft, ds, 5, pending) && bitsLeft < 5 && Digits32(ds) && out == Chars32(ds)
    ensures Digits32(Pack(Padded(all, 5), 5)) && result == Chars32(Pack(Padded(all, 5), 5))
  {
    result := out;
    Sizes();
    if bitsLeft > 0 {
      var shifted := Wrap32(buffer * Pow2(5 - bitsLeft));
      var d: nat := shifted % 32;
      Wrap32Congruent(buffer * Pow2(5 - bitsLeft));
      LastDigit(buffer, shifted, all, ds, 5, pending, d);
      result := result + [Char32(d)];
    } else {
      NoLastDigit(all, ds, 5);
    }
  }

  lemma Next32(text: string, i: nat, ds: seq<nat>)
    requires i < |text|
    ensures var d := Value32(text[i]);
            ds + Digits32Of(text[i..]) == (if d.None? then ds else ds + [d.value]) + Digits32Of(text[i + 1..])
  {
    assert text[i..][1..] == text[i + 1..];
    if Value32(text[i]).Some? {
      HeadFirst(ds, Value32(text[i]).value, Digits32Of(text[i + 1..]));
    }
  }

  lemma HeadFirst(ds: seq<nat>, d: nat, rest: seq<nat>)
    ensures ds + ([d] + rest) == (ds + [d]) + rest
  {
  }

  method Base32Decode(encoded: string) returns (result: seq<nat>)
    ensures result == Base32Bytes(encoded)
  {
    result := [];
    var buffer, bitsLeft := 0, 0;
    ghost var ds: seq<nat>, pending: Bits := [], [];
    Sizes();
    assert encoded[0..] == encoded;
    for i := 0 to |encoded|
      invariant Midway(Unpack(ds, 5), buffer, bitsLeft, result, 8, pending) && bitsLeft < 8
      invariant Digits32Of(encoded) == ds + Digits32Of(encoded[i..])
    {
      var val := Value32(encoded[i]);
      Next32(encoded, i, ds);
      if val.None? {
        continue;
      }
      buffer, bitsLeft, result, pending := TakeDigit(buffer, bitsLeft, result, val.value, 5, 32, true, ds, pending);
      ds := ds + [val.value];
    }
    assert encoded[|encoded|..] == [];
    assert ds + [] == ds;
    Finished(Unpack(ds, 5), result, 8, pending);
  }

  lemma {:induction false} DigitsOfChars32(ds: seq<nat>)
    requires Digits32(ds)
    ensures Digits32Of(Chars32(ds)) == ds
    decreases |ds|
  {
    if ds != [] {
      assert Chars32(ds)[1..] == Chars32(ds[1..]);
      DigitsOfChars32(ds[1..]);
      assert ds == [ds[0]] + ds[1..];
    }
  }

  /** Decoding undoes encoding. */
  lemma Base32RoundTrip(input: seq<nat>)
    requires Octets(input)
    ensures Base32Bytes(Base32(input)) == input
  {
    var ds := Regroup(input, 5);
    RegroupFits(input, 5);
    Sizes();
    DigitsOfChars32(ds);
    OctetsFit(input);
    RegroupingUndone(input, 8, 5);
  }

  function Lower(c: char): char {
    if 'A' <= c <= 'Z' then (c as int - 'A' as int + 'a' as int) as char else c
  }

  lemma {:induction false} DigitsIgnoreCase(text: string)
    ensures Digits32Of(Map(Lower, text)) == Digits32Of(text)
    decreases |text|
  {
    if text != [] {
      assert Value32(Lower(text[0])) == Value32(text[0]);
      assert Map(Lower, text)[1..] == Map(Lower, text[1..]);
      DigitsIgnoreCase(text[1..]);
    }
  }

  /** A secret decodes the same in either case. */
  lemma Base32IgnoresCase(text: string)
    ensures Base32Bytes(Map(Lower, text)) == Base32Bytes(text)
  {
    DigitsIgnoreCase(text);
  }

  // ---------------------------------------------------------------- capped base64

  /** The digits up to the first `=`; characters outside the alphabet are skipped. */
  function DigitsSkipping(text: string): seq<nat> {
    if text == [] || text[0] == '=' then []
    else (if Value64(text[0]).Some? then [Value64(text[0]).value] else []) + DigitsSkipping(text[1..])
  }

  /** The whole decoding, without a cap. */
  function Base64Bytes(text: string): seq<nat> {
    Pack(Unpack(DigitsSkipping(text), 6), 8)
  }

  lemma FrontOfPack(all: Bits, out: seq<nat>, pending: Bits, more: Bits)
    requires Regrouped(all, out, 8, pending)
    ensures out <= Pack(all + more, 8)
  {
    Grow(all, out, 8, pending, more);
    PackUnpack(out, pending + more, 8);
  }

  /** What has come out so far is the front of the whole decoding. */
  lemma FrontOfDecoding(text: string, ds: seq<nat>, rest: seq<nat>, out: seq<nat>, pending: Bits)
    requires DigitsSkipping(text) == ds + rest && Regrouped(Unpack(ds, 6), out, 8, pending)
    ensures out <= Base64Bytes(text)
  {
    UnpackSum(ds, rest, 6);
    FrontOfPack(Unpack(ds, 6), out, pending, Unpack(rest, 6));
  }

  lemma SkippingNext(text: string, i: nat, ds: seq<nat>)
    requires i < |text| && text[i] != '='
    ensures var d := Value64(text[i]);
            ds + DigitsSkipping(text[i..]) == (if d.None? then ds else ds + [d.value]) + DigitsSkipping(text[i + 1..])
  {
    assert text[i..][1..] == text[i + 1..];
    if Value64(text[i]).Some? {
      HeadFirst(ds, Value64(text[i]).value, DigitsSkipping(text[i + 1..]));
    }
  }

  /** The source counts `bits` from -8: `count` here is `bits + 8`. */
  method DecodeBase64Capped(text: string, maxBytes: nat) returns (out: seq<nat>, oversized: bool)
    ensures var full := Base64Bytes(text);
            && oversized == (|full| > maxBytes)
            && out == if |full| <= maxBytes then full else full[..maxBytes + 1]
  {
    out, oversized := [], false;
    var buf, count, i := 0, 0, 0;
    ghost var ds: seq<nat>, pending: Bits := [], [];
    Sizes();
    assert text[0..] == text;
    while i < |text| && text[i] != '='
      invariant 0 <= i <= |text| && |out| <= maxBytes
      invariant Midway(Unpack(ds, 6), buf, count, out, 8, pending) && count < 8
      invariant DigitsSkipping(text) == ds + DigitsSkipping(text[i..])
    {
      var d := Value64(text[i]);
      SkippingNext(text, i, ds);
      i := i + 1;
      if d.None? {
        continue;
      }
      buf, count, out, pending := TakeDigit(buf, count, out, d.value, 6, 64, true, ds, pending);
      ds := ds + [d.value];
      if |out| > maxBytes {
        FrontOfDecoding(text, ds, DigitsSkipping(text[i..]), out, pending);
        oversized := true;
        return;
      }
    }
    assert DigitsSkipping(text[i..]) == [];
    assert ds + [] == ds;
    Finished(Unpack(ds, 6), out, 8, pending);
  }
}
