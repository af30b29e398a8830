/** ULIDs: a 48-bit time and 80 random bits as 26 characters of Crockford's base 32. The
    random generator and the clock are inputs. */
module Ulid {
  import opened BitStream
  import opened Wrappers

  // ---------------------------------------------------------------- digits

  /** The alphabet `0`-`9`, `A`-`Z` without `I`, `L`, `O`, `U`. */
  function Digit(d: nat): char
    requires d < 32
  {
    if d < 10 then ('0' as int + d) as char
    else if d < 18 then ('A' as int + d - 10) as char
    else if d < 20 then ('J' as int + d - 18) as char
    else if d < 22 then ('M' as int + d - 20) as char
    else if d < 27 then ('P' as int + d - 22) as char
    else ('V' as int + d - 27) as char
  }

  const CROCKFORD := "0123456789ABCDEFGHJKMNPQRSTVWXYZ"

  /** The digits are Crockford's alphabet, in its order. */
  lemma DigitIsCrockford(d: nat)
    requires d < 32
    ensures |CROCKFORD| == 32 && Digit(d) == CROCKFORD[d]
  {
    assert CROCKFORD == "0123456789ABCDEF" + "GHJKMNPQRSTVWXYZ";
  }

  lemma DigitOrder(a: nat, b: nat)
    requires a < 32 && b < 32
    ensures Digit(a) < Digit(b) <==> a < b
    ensures Digit(a) == Digit(b) <==> a == b
  {
  }

  function Pow32(k: nat): (p: nat)
    ensures p > 0
  {
    if k == 0 then 1 else 32 * Pow32(k - 1)
  }

  /** The `count` low base-32 digits of a number, highest first. */
  function Digits(value: nat, count: nat): (s: string)
    ensures |s| == count
    decreases count, value
  {
    if count == 0 then "" else Digits(value / 32, count - 1) + [Digit(value % 32)]
  }

  /** Writes the digits into a part of a buffer. */
  method EncodeFixed(out: array<char>, at: nat, value0: nat, count: nat)
    requires at + count <= out.Length
    modifies out
    ensures out[at..at + count] == Digits(value0, count)
    ensures out[..at] == old(out[..at]) && out[at + count..] == old(out[at + count..])
  {
    var value, i := value0, count;
    assert out[at + count..at + count] == [];
    while i > 0
      invariant 0 <= i <= count
      invariant Digits(value0, count) == Digits(value, i) + out[at + i..at + count]
      invariant out[..at] == old(out[..at]) && out[at + count..] == old(out[at + count..])
    {
      ghost var done := out[at + i..at + count];
      i := i - 1;
      out[at + i] := Digit(value % 32);
      assert out[at + i..at + count] == [Digit(value % 32)] + done;
      assert (Digits(value / 32, i) + [Digit(value % 32)]) + done == Digits(value / 32, i) + ([Digit(value % 32)] + done);
      value := value / 32;
    }
  }

  /** The position of a character in the alphabet, or -1. */
  method DecodeChar(c: char) returns (v: int)
    ensures -1 <= v < 32
    ensures v >= 0 ==> Digit(v) == c
    ensures v < 0 ==> forall d: nat | d < 32 :: Digit(d) != c
  {
    for i := 0 to 32
      invariant forall d: nat | d < i :: Digit(d) != c
    {
      if Digit(i) == c {
        return i;
      }
    }
    return -1;
  }

  // ---------------------------------------------------------------- order

  /** The order of `std::string`. */
  predicate Less(a: string, b: string) {
    b != [] && (a == [] || a[0] < b[0] || (a[0] == b[0] && Less(a[1..], b[1..])))
  }

  lemma {:induction false} LessOfParts(a: string, b: string, x: string, y: string)
    requires |a| == |b|
    ensures Less(a + x, b + y) <==> Less(a, b) || (a == b && Less(x, y))
    decreases |a|
  {
    if a == [] {
      assert a + x == x && b + y == y;
    } else {
      assert (a + x)[1..] == a[1..] + x && (b + y)[1..] == b[1..] + y;
      LessOfParts(a[1..], b[1..], x, y);
      assert a == [a[0]] + a[1..] && b == [b[0]] + b[1..];
    }
  }

  /** Digits of one length are ordered as their numbers are. */
  lemma {:induction false} DigitsOrder(a: nat, b: nat, count: nat)
    requires a < Pow32(count) && b < Pow32(count)
    ensures Less(Digits(a, count), Digits(b, count)) <==> a < b
    ensures Digits(a, count) == Digits(b, count) <==> a == b
    decreases count
  {
    if count > 0 {
      var x, y := [Digit(a % 32)], [Digit(b % 32)];
      DigitsOrder(a / 32, b / 32, count - 1);
      DigitOrder(a % 32, b % 32);
      LessOfParts(Digits(a / 32, count - 1), Digits(b / 32, count - 1), x, y);
      assert x[1..] == [] && y[1..] == [];
      assert Digits(a, count)[..count - 1] == Digits(a / 32, count - 1);
      assert Digits(b, count)[..count - 1] == Digits(b / 32, count - 1);
      assert Digits(a, count)[count - 1] == x[0] && Digits(b, count)[count - 1] == y[0];
    }
  }

  // ---------------------------------------------------------------- generation

  const TIME := 0x1_0000_0000_0000
  const LOW16 := 0x1_0000
  const TWO_59 := 0x800_0000_0000_0000
  const TWO_64 := 0x1_0000_0000_0000_0000

  function TimeOf(unixMillis: int): nat {
    unixMillis % TIME
  }

  /** The 80 random bits: all of one draw and the low 16 of the next. */
  function Randomness(r1: nat, r2: nat): nat {
    r1 * LOW16 + r2 % LOW16
  }

  function Spelled(unixMillis: int, r1: nat, r2: nat): string {
    Digits(TimeOf(unixMillis), 10) + Digits(Randomness(r1, r2), 16)
  }

  lemma Sizes()
    ensures Pow2(5) == 32 && Pow2(16) == LOW16 && Pow2(48) == TIME && Pow2(59) == TWO_59 && Pow2(64) == TWO_64
  {
    assert Pow2(11) == 2048;
    Pow2Sum(8, 8);
    assert Pow2(8) == 256;
    Pow2Sum(16, 16);
    Pow2Sum(32, 16);
    Pow2Sum(48, 11);
    Pow2Sum(32, 32);
  }

  function Chars(ds: seq<nat>): (text: string)
    requires forall i :: 0 <= i < |ds| ==> ds[i] < 32
    ensures |text| == |ds|
  {
    seq(|ds|, i requires 0 <= i < |ds| => Digit(ds[i]))
  }

  lemma ValueOfMore(front: seq<nat>, d: nat)
    requires d < 32
    ensures var v := FromBits(Unpack(front + [d], 5)); v / 32 == FromBits(Unpack(front, 5)) && v % 32 == d
  {
    UnpackSum(front, [d], 5);
    UnpackOne(d, 5);
    FromBitsSum(Unpack(front, 5), ToBits(d, 5));
    assert Pow2(5) == 32;
    FromToBits(d, 5);
  }

  lemma {:induction false} DigitsOfBits(ds: seq<nat>)
    requires forall i :: 0 <= i < |ds| ==> ds[i] < 32
    ensures Digits(FromBits(Unpack(ds, 5)), |ds|) == Chars(ds)
    decreases |ds|
  {
    if ds != [] {
      var n := |ds| - 1;
      var front, d := ds[..n], ds[n];
      assert ds == front + [d];
      ValueOfMore(front, d);
      DigitsOfBits(front);
      assert Chars(ds) == Chars(front) + [Digit(d)];
    }
  }

  /** The 128-bit register of the generator and the bits it holds. */
  ghost predicate Register(hi: nat, lo: nat, H: Bits, L: Bits) {
    |H| == 64 && |L| == 64 && hi == FromBits(H) && lo == FromBits(L)
  }

  lemma ZeroValue(k: nat)
    ensures FromBits(Zeros(k)) == 0
  {
    ZeroBits(k);
    FromToBits(0, k);
  }

  lemma TopFive(word: nat, bits: Bits)
    requires |bits| == 64 && word == FromBits(bits)
    ensures word / TWO_59 == FromBits(bits[..5]) < 32
    ensures word * 32 % TWO_64 == FromBits(bits[5..]) * 32
  {
    Sizes();
    assert bits == bits[..5] + bits[5..];
    FromBitsSum(bits[..5], bits[5..]);
    FromBitsBound(bits[..5]);
    FromBitsBound(bits[5..]);
    var top, rest := FromBits(bits[..5]), FromBits(bits[5..]);
    assert word == top * TWO_59 + rest;
    DivModUnique(word, TWO_59, top, rest);
    assert TWO_64 == 32 * TWO_59;
    DivModUnique(word * 32, TWO_64, top, rest * 32);
  }

  lemma RegisterShifted(hi: nat, lo: nat, H: Bits, L: Bits)
    requires Register(hi, lo, H, L)
    ensures hi / TWO_59 % 32 == FromBits(H[..5])
    ensures Register(hi * 32 % TWO_64 + lo / TWO_59, lo * 32 % TWO_64, H[5..] + L[..5], L[5..] + Zeros(5))
  {
    TopFive(hi, H);
    TopFive(lo, L);
    Join5(H[5..], L[..5]);
    Join5(L[5..], Zeros(5));
    ZeroValue(5);
  }

  lemma Join5(a: Bits, b: Bits)
    requires |b| == 5
    ensures FromBits(a + b) == FromBits(a) * 32 + FromBits(b)
  {
    FromBitsSum(a, b);
    assert Pow2(5) == 32;
  }

  /** The bits that have not been spelled, after `i` digits. */
  ghost predicate Remaining(all: Bits, i: nat, ds: seq<nat>, H: Bits, L: Bits) {
    && |ds| == i
    && (forall k :: 0 <= k < |ds| ==> ds[k] < 32)
    && all + Zeros(5 * i) == Unpack(ds, 5) + (H + L)
  }

  lemma RemainingShifted(all: Bits, i: nat, ds: seq<nat>, H: Bits, L: Bits)
    requires Remaining(all, i, ds, H, L) && |H| == |L| == 64
    ensures Remaining(all, i + 1, ds + [FromBits(H[..5])], H[5..] + L[..5], L[5..] + Zeros(5))
  {
    var d := FromBits(H[..5]);
    FromBitsBound(H[..5]);
    ToFromBits(H[..5]);
    Sizes();
    UnpackSum(ds, [d], 5);
    UnpackOne(d, 5);
    var front := Unpack(ds, 5);
    assert Zeros(5 * (i + 1)) == Zeros(5 * i) + Zeros(5);
    assert all + (Zeros(5 * i) + Zeros(5)) == (all + Zeros(5 * i)) + Zeros(5);
    Slide(front, H, L, Zeros(5));
  }

  lemma Slide(front: Bits, H: Bits, L: Bits, zeros: Bits)
    requires |H| >= 5 && |L| >= 5
    ensures (front + (H + L)) + zeros == (front + H[..5]) + ((H[5..] + L[..5]) + (L[5..] + zeros))
  {
  }

  lemma LowWord(low: nat)
    requires low < LOW16
    ensures low * TIME == FromBits(ToBits(low, 16) + Zeros(48))
  {
    Sizes();
    FromToBits(low, 16);
    FromBitsSum(ToBits(low, 16), Zeros(48));
    ZeroValue(48);
  }

  lemma RandomBits(r1: nat, low: nat)
    requires r1 < TWO_64 && low < LOW16
    ensures FromBits(ToBits(r1, 64)) == r1 && FromBits(ToBits(r1, 64) + ToBits(low, 16)) == r1 * LOW16 + low
  {
    Sizes();
    FromToBits(r1, 64);
    FromToBits(low, 16);
    FromBitsSum(ToBits(r1, 64), ToBits(low, 16));
  }

  /** The random bits as the register holds them at first. */
  lemma FirstRegister(r1: nat, r2: nat)
    requires r1 < TWO_64
    ensures var low := ToBits(r2 % LOW16, 16);
            Register(r1, r2 % LOW16 * TIME, ToBits(r1, 64), low + Zeros(48))
            && FromBits(ToBits(r1, 64) + low) == Randomness(r1, r2)
  {
    LowWord(r2 % LOW16);
    RandomBits(r1, r2 % LOW16);
  }

  /** After 16 digits the 80 random bits are spelled. */
  lemma AllSpelled(r1: nat, r2: nat, ds: seq<nat>, H: Bits, L: Bits)
    requires r1 < TWO_64 && |H| == |L| == 64
    requires Remaining(ToBits(r1, 64) + (ToBits(r2 % LOW16, 16) + Zeros(48)), 16, ds, H, L)
    ensures Chars(ds) == Digits(Randomness(r1, r2), 16)
  {
    var a, b := ToBits(r1, 64), ToBits(r2 % LOW16, 16);
    assert (a + (b + Zeros(48)) + Zeros(80))[..80] == a + b;
    assert (Unpack(ds, 5) + (H + L))[..80] == Unpack(ds, 5);
    FirstRegister(r1, r2);
    DigitsOfBits(ds);
  }

  method SpellRandomness(out: array<char>, r1: nat, r2: nat)
    requires out.Length == 26 && r1 < TWO_64
    modifies out
    ensures out[..10] == old(out[..10])
    ensures out[10..] == Digits(Randomness(r1, r2), 16)
  {
    var hi: nat, lo: nat := r1, r2 % LOW16 * TIME;
    ghost var all := ToBits(r1, 64) + (ToBits(r2 % LOW16, 16) + Zeros(48));
    ghost var H, L := ToBits(r1, 64), ToBits(r2 % LOW16, 16) + Zeros(48);
    ghost var ds: seq<nat> := [];
    FirstRegister(r1, r2);
    assert all + Zeros(0) == Unpack([], 5) + (H + L);
    for i := 0 to 16
      invariant Register(hi, lo, H, L) && Remaining(all, i, ds, H, L)
      invariant out[..10] == old(out[..10]) && out[10..10 + i] == Chars(ds)
    {
      RegisterShifted(hi, lo, H, L);
      RemainingShifted(all, i, ds, H, L);
      var chunk: nat := hi / TWO_59 % 32;
      out[10 + i] := Digit(chunk);
      hi, lo := hi * 32 % TWO_64 + lo / TWO_59, lo * 32 % TWO_64;
      ds, H, L := ds + [chunk], H[5..] + L[..5], L[5..] + Zeros(5);
    }
    AllSpelled(r1, r2, ds, H, L);
    assert out[10..] == out[10..10 + 16];
  }

  method GenerateAt(unixMillis: int, r1: nat, r2: nat) returns (id: string)
    requires r1 < TWO_64
    ensures id == Spelled(unixMillis, r1, r2)
  {
    var out := new char[26](i => '0');
    EncodeFixed(out, 0, unixMillis % TIME, 10);
    ghost var front := out[..10];
    assert front == out[0..10];
    SpellRandomness(out, r1, r2);
    assert out[..] == out[..10] + out[10..];
    id := out[..];
  }

  // ---------------------------------------------------------------- reading the time

  /** The position of a character in the alphabet. */
  ghost function ValueOf(c: char): Option<nat> {
    if exists d: nat :: d < 32 && Digit(d) == c then
      var d: nat :| d < 32 && Digit(d) == c; Some(d)
    else None
  }

  lemma ValueOfDigit(d: nat)
    requires d < 32
    ensures ValueOf(Digit(d)) == Some(d)
  {
    forall x: nat | x < 32 && Digit(x) == Digit(d) ensures x == d {
      DigitOrder(x, d);
    }
  }

  /** The number a string of digits spells. */
  ghost function Number(s: string): Option<nat> {
    if s == [] then Some(0)
    else
      var front, last := Number(s[..|s| - 1]), ValueOf(s[|s| - 1]);
      if front.None? || last.None? then None else Some(front.value * 32 + last.value)
  }

  lemma {:induction false} NumberBound(s: string)
    ensures Number(s).Some? ==> Number(s).value < Pow32(|s|)
    decreases |s|
  {
    if s != [] {
      NumberBound(s[..|s| - 1]);
    }
  }

  lemma {:induction false} NumberOfDigits(v: nat, count: nat)
    requires v < Pow32(count)
    ensures Number(Digits(v, count)) == Some(v)
    decreases count
  {
    if count > 0 {
      var s := Digits(v, count);
      assert s[..|s| - 1] == Digits(v / 32, count - 1) && s[|s| - 1] == Digit(v % 32);
      NumberOfDigits(v / 32, count - 1);
      ValueOfDigit(v % 32);
    }
  }

  /** A bad character spoils every longer string. */
  lemma {:induction false} NumberOfPrefix(s: string, i: nat)
    requires i <= |s| && Number(s[..i]).None?
    ensures Number(s).None?
    decreases |s|
  {
    if i < |s| {
      assert s[..|s| - 1][..i] == s[..i];
      NumberOfPrefix(s[..|s| - 1], i);
    } else {
      assert s[..i] == s;
    }
  }

  /** The result has fifty bits at most, so the 64-bit shifts lose nothing. */
  lemma NextDigit(s: string, i: nat, d: nat)
    requires i < |s| && d < 32 && Digit(d) == s[i]
    ensures Number(s[..i]).Some? ==> Number(s[..i + 1]) == Some(Number(s[..i]).value * 32 + d)
  {
    ValueOfDigit(d);
    assert s[..i + 1][..i] == s[..i] && s[..i + 1][i] == s[i];
  }

  lemma NoNumber(s: string, i: nat)
    requires i < |s| && forall d: nat | d < 32 :: Digit(d) != s[i]
    ensures Number(s).None?
  {
    assert s[..i + 1][i] == s[i];
    assert Number(s[..i + 1]).None?;
    NumberOfPrefix(s, i + 1);
  }

  method DecodeTimestamp(id: string) returns (r: Option<nat>)
    ensures r == if |id| != 26 then None else Number(id[..10])
    ensures r.Some? ==> r.value < Pow32(10)
  {
    if |id| != 26 {
      return None;
    }
    NumberBound(id[..10]);
    var ts: nat := 0;
    for i := 0 to 10
      invariant Number(id[..i]) == Some(ts)
    {
      var v := DecodeChar(id[i]);
      if v < 0 {
        NoNumber(id[..10], i);
        return None;
      }
      NextDigit(id, i, v);
      ts := ts * 32 + v;
    }
    r := Some(ts);
  }

  // ---------------------------------------------------------------- the specification's promises

  lemma Capacity(unixMillis: int, r1: nat, r2: nat)
    requires r1 < TWO_64
    ensures TimeOf(unixMillis) < Pow32(10) && Randomness(r1, r2) < Pow32(16)
  {
    assert Pow32(5) == 0x200_0000;
    assert Pow32(10) == 0x4_0000_0000_0000 by {
      assert Pow32(6) == 0x4000_0000 && Pow32(7) == 0x8_0000_0000 && Pow32(8) == 0x100_0000_0000;
    }
    assert Pow32(12) == 1024 * Pow32(10) && Pow32(14) == 1024 * Pow32(12) && Pow32(16) == 1024 * Pow32(14);
  }

  /** The order and the identity of ULIDs are those of their time first and their random
      bits second. */
  lemma UlidOrder(m1: int, m2: int, a1: nat, a2: nat, b1: nat, b2: nat)
    requires a1 < TWO_64 && b1 < TWO_64
    ensures var t, u, r, q := TimeOf(m1), TimeOf(m2), Randomness(a1, a2), Randomness(b1, b2);
            && (Less(Spelled(m1, a1, a2), Spelled(m2, b1, b2)) <==> t < u || (t == u && r < q))
            && (Spelled(m1, a1, a2) == Spelled(m2, b1, b2) <==> t == u && r == q)
  {
    var t, u, r, q := TimeOf(m1), TimeOf(m2), Randomness(a1, a2), Randomness(b1, b2);
    Capacity(m1, a1, a2);
    Capacity(m2, b1, b2);
    DigitsOrder(t, u, 10);
    DigitsOrder(r, q, 16);
    LessOfParts(Digits(t, 10), Digits(u, 10), Digits(r, 16), Digits(q, 16));
    assert Spelled(m1, a1, a2)[..10] == Digits(t, 10) && Spelled(m2, b1, b2)[..10] == Digits(u, 10);
    assert Spelled(m1, a1, a2)[10..] == Digits(r, 16) && Spelled(m2, b1, b2)[10..] == Digits(q, 16);
  }

  /** Different draws give different random parts. */
  lemma RandomnessIsInjective(a1: nat, a2: nat, b1: nat, b2: nat)
    ensures Randomness(a1, a2) == Randomness(b1, b2) <==> a1 == b1 && a2 % LOW16 == b2 % LOW16
  {
    DivModUnique(Randomness(a1, a2), LOW16, a1, a2 % LOW16);
    DivModUnique(Randomness(b1, b2), LOW16, b1, b2 % LOW16);
  }

  lemma TimeFits(unixMillis: int)
    ensures TimeOf(unixMillis) == unixMillis <==> 0 <= unixMillis < TIME
  {
    if 0 <= unixMillis < TIME {
      DivModUnique(unixMillis, TIME, 0, unixMillis);
    }
  }

  /** The time reads back, exactly when it fits 48 bits. */
  lemma TimeReadsBack(unixMillis: int, r1: nat, r2: nat)
    requires r1 < TWO_64
    ensures Number(Spelled(unixMillis, r1, r2)[..10]) == Some(TimeOf(unixMillis))
    ensures TimeOf(unixMillis) == unixMillis <==> 0 <= unixMillis < TIME
  {
    TimeFits(unixMillis);
    Capacity(unixMillis, r1, r2);
    assert Spelled(unixMillis, r1, r2)[..10] == Digits(TimeOf(unixMillis), 10);
    NumberOfDigits(TimeOf(unixMillis), 10);
  }

  /** Within 48 bits the order of ULIDs of different times is the order of the times. */
  lemma TimeOrder(m1: int, m2: int, a1: nat, a2: nat, b1: nat, b2: nat)
    requires 0 <= m1 < TIME && 0 <= m2 < TIME && m1 != m2 && a1 < TWO_64 && b1 < TWO_64
    ensures Less(Spelled(m1, a1, a2), Spelled(m2, b1, b2)) <==> m1 < m2
  {
    TimeFits(m1);
    TimeFits(m2);
    UlidOrder(m1, m2, a1, a2, b1, b2);
  }
}
