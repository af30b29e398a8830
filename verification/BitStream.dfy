/** Numbers as bit strings, and accumulators that hold the last few bits of one. */
module BitStream {
  type Bits = seq<bool>

  function Pow2(k: nat): (p: nat)
    ensures p > 0
  {
    if k == 0 then 1 else 2 * Pow2(k - 1)
  }

  lemma {:induction false} Pow2Sum(a: nat, b: nat)
    ensures Pow2(a + b) == Pow2(a) * Pow2(b)
    decreases a
  {
    if a > 0 {
      Pow2Sum(a - 1, b);
    }
  }

  // ---------------------------------------------------------------- division

  lemma MulAtLeast(m: nat, d: int)
    ensures d >= 1 ==> m * d >= m
    ensures d <= -1 ==> m * d + m <= 0
  {
    if d >= 1 {
      assert m * d == m + m * (d - 1);
    } else if d <= -1 {
      assert m * d + m == m * (d + 1);
    }
  }

  lemma DivModUnique(a: int, m: nat, q: int, r: int)
    requires m > 0 && a == m * q + r && 0 <= r < m
    ensures a / m == q && a % m == r
  {
    var x, y := a / m, a % m;
    var d := x - q;
    assert a == m * x + y;
    assert m * d == m * x - m * q;
    MulAtLeast(m, d);
  }

  lemma MulAssociative(a: int, b: int, c: int)
    ensures (a * b) * c == a * (b * c)
  {
  }

  lemma ModOfProduct(a: int, m: nat, n: nat)
    requires m > 0 && n > 0 && m * n > 0
    ensures a % m == (a % (m * n)) % m
  {
    var w := m * n;
    var x, t := a / w, a % w;
    var q, r := t / m, t % m;
    MulAssociative(m, n, x);
    assert m * (n * x + q) == m * (n * x) + m * q;
    DivModUnique(a, m, n * x + q, r);
  }

  lemma ModOfShift(acc: int, m: nat, n: nat, d: nat)
    requires m > 0 && d < n && m * n > 0
    ensures (acc * n + d) % (m * n) == (acc % m) * n + d
  {
    var q, r := acc / m, acc % m;
    MulAssociative(m, n, q);
    MulAssociative(m, q, n);
    assert (m * q + r) * n == (m * q) * n + r * n;
    assert m * (n * q) == m * (q * n);
    MulAtLeast(n, m - r);
    assert n * (m - r) == m * n - r * n;
    assert r * n >= 0 by {
      if r >= 1 {
        MulAtLeast(n, r);
      }
    }
    DivModUnique(acc * n + d, m * n, q, r * n + d);
  }

  lemma DivOfShift(acc: int, m: nat, n: nat, top: nat, rest: nat)
    requires m > 0 && top < n && rest < m && n * m > 0 && acc % (n * m) == top * m + rest
    ensures (acc / m) % n == top && acc % m == rest
  {
    var q := acc / (n * m);
    MulAssociative(m, n, q);
    assert n * m == m * n;
    assert m * (n * q + top) == m * (n * q) + m * top;
    DivModUnique(acc, m, n * q + top, rest);
    DivModUnique(n * q + top, n, q, top);
  }

  // ---------------------------------------------------------------- bit strings

  function Bit(b: bool): nat {
    if b then 1 else 0
  }

  /** The number a bit string spells, highest bit first. */
  function FromBits(bits: Bits): nat {
    if bits == [] then 0 else Bit(bits[0]) * Pow2(|bits| - 1) + FromBits(bits[1..])
  }

  /** The `w` low bits of `v`, highest first. */
  function ToBits(v: nat, w: nat): (bits: Bits)
    ensures |bits| == w
    decreases w, v
  {
    if w == 0 then [] else ToBits(v / 2, w - 1) + [v % 2 == 1]
  }

  lemma {:induction false} FromBitsBound(bits: Bits)
    ensures FromBits(bits) < Pow2(|bits|)
    decreases |bits|
  {
    if bits != [] {
      FromBitsBound(bits[1..]);
    }
  }

  lemma {:induction false} FromBitsSum(a: Bits, b: Bits)
    ensures FromBits(a + b) == FromBits(a) * Pow2(|b|) + FromBits(b)
    decreases |a|
  {
    if a == [] {
      assert a + b == b;
    } else {
      assert (a + b)[1..] == a[1..] + b;
      FromBitsSum(a[1..], b);
      Pow2Sum(|a| - 1, |b|);
      var x, y := Bit(a[0]) * Pow2(|a| - 1), FromBits(a[1..]);
      assert (x + y) * Pow2(|b|) == x * Pow2(|b|) + y * Pow2(|b|);
    }
  }

  lemma {:induction false} FromToBits(v: nat, w: nat)
    requires v < Pow2(w)
    ensures FromBits(ToBits(v, w)) == v
    decreases w
  {
    if w > 0 {
      FromToBits(v / 2, w - 1);
      var last := [v % 2 == 1];
      assert FromBits(last) == v % 2 by {
        assert last[1..] == [];
      }
      FromBitsSum(ToBits(v / 2, w - 1), last);
      assert Pow2(1) == 2;
    }
  }

  lemma {:induction false} ToFromBits(bits: Bits)
    ensures ToBits(FromBits(bits), |bits|) == bits
    decreases |bits|
  {
    if bits != [] {
      var n := |bits| - 1;
      var front, last := bits[..n], [bits[n]];
      assert bits == front + last;
      FromBitsSum(front, last);
      assert FromBits(last) == Bit(bits[n]) by {
        assert last[1..] == [];
      }
      assert Pow2(1) == 2;
      ToFromBits(front);
    }
  }

  // ---------------------------------------------------------------- regrouping

  /** The bits of numbers of `w` bits each. */
  function Unpack(ds: seq<nat>, w: nat): (bits: Bits)
    ensures |bits| == w * |ds|
  {
    if ds == [] then [] else ToBits(ds[0], w) + Unpack(ds[1..], w)
  }

  /** The numbers of `w` bits each that a bit string spells; bits that do not fill one are
      dropped. */
  function Pack(bits: Bits, w: nat): (ds: seq<nat>)
    requires w > 0
    decreases |bits|
  {
    if |bits| < w then [] else [FromBits(bits[..w])] + Pack(bits[w..], w)
  }

  function Zeros(k: nat): (bits: Bits)
    ensures |bits| == k
  {
    seq(k, i => false)
  }

  /** Zero bits up to the next multiple of `w`. */
  function Padded(bits: Bits, w: nat): Bits
    requires w > 0
  {
    bits + Zeros((w - |bits| % w) % w)
  }

  ghost predicate Fit(ds: seq<nat>, w: nat) {
    forall i :: 0 <= i < |ds| ==> ds[i] < Pow2(w)
  }

  lemma {:induction false} UnpackSum(a: seq<nat>, b: seq<nat>, w: nat)
    ensures Unpack(a + b, w) == Unpack(a, w) + Unpack(b, w)
    decreases |a|
  {
    if a == [] {
      assert a + b == b;
    } else {
      assert (a + b)[1..] == a[1..] + b;
      UnpackSum(a[1..], b, w);
      assert ToBits(a[0], w) + (Unpack(a[1..], w) + Unpack(b, w)) == (ToBits(a[0], w) + Unpack(a[1..], w)) + Unpack(b, w);
    }
  }

  lemma UnpackOne(d: nat, w: nat)
    ensures Unpack([d], w) == ToBits(d, w)
  {
    assert [d][1..] == [];
  }

  lemma HeadAndTail(ds: seq<nat>, more: seq<nat>)
    requires ds != []
    ensures [ds[0]] + (ds[1..] + more) == ds + more
  {
  }

  lemma PackFront(front: Bits, rest: Bits, w: nat)
    requires |front| == w > 0
    ensures Pack(front + rest, w) == [FromBits(front)] + Pack(rest, w)
  {
    assert (front + rest)[..w] == front && (front + rest)[w..] == rest;
  }

  /** Packing undoes unpacking and goes on with what follows. */
  lemma {:induction false} PackUnpack(ds: seq<nat>, rest: Bits, w: nat)
    requires w > 0 && Fit(ds, w)
    ensures Pack(Unpack(ds, w) + rest, w) == ds + Pack(rest, w)
    decreases |ds|
  {
    if ds == [] {
      assert Unpack(ds, w) + rest == rest;
    } else {
      var front, more := ToBits(ds[0], w), Unpack(ds[1..], w) + rest;
      assert Unpack(ds, w) + rest == front + more;
      FromToBits(ds[0], w);
      PackFront(front, more, w);
      PackUnpack(ds[1..], rest, w);
      HeadAndTail(ds, Pack(rest, w));
    }
  }

  lemma {:induction false} UnpackPack(bits: Bits, w: nat)
    requires w > 0 && |bits| % w == 0
    ensures Unpack(Pack(bits, w), w) == bits
    ensures Fit(Pack(bits, w), w)
    decreases |bits|
  {
    if bits != [] {
      assert |bits| >= w;
      assert |bits[w..]| % w == 0 by {
        ModuloLess(|bits|, w);
      }
      UnpackPack(bits[w..], w);
      ToFromBits(bits[..w]);
      FromBitsBound(bits[..w]);
      var ds := Pack(bits, w);
      assert ds[1..] == Pack(bits[w..], w);
      assert bits == bits[..w] + bits[w..];
    }
  }

  lemma ModuloLess(n: nat, w: nat)
    requires w > 0 && n >= w && n % w == 0
    ensures (n - w) % w == 0
  {
    var q := n / w;
    assert n == w * q;
    assert n - w == w * (q - 1);
    MultipleHasNoRest(q - 1, w);
  }

  lemma MultipleHasNoRest(q: int, w: nat)
    requires w > 0
    ensures (w * q) % w == 0
  {
    DivModUnique(w * q, w, q, 0);
  }

  /** What regrouping into `w` bits and back into `v` bits returns: everything, when the
      padding is too short to look like another number. */
  lemma RegroupingUndone(ds: seq<nat>, v: nat, w: nat)
    requires 0 < w <= v && Fit(ds, v)
    ensures Pack(Unpack(Pack(Padded(Unpack(ds, v), w), w), w), v) == ds
  {
    var bits := Unpack(ds, v);
    var pad := (w - |bits| % w) % w;
    PaddedFits(|bits|, w);
    UnpackPack(Padded(bits, w), w);
    PackUnpack(ds, Zeros(pad), v);
  }

  lemma PaddedFits(n: nat, w: nat)
    requires w > 0
    ensures var pad := (w - n % w) % w; pad < w && (n + pad) % w == 0
  {
    var q, r := n / w, n % w;
    if r == 0 {
      DivModUnique(w, w, 1, 0);
    } else {
      DivModUnique(w - r, w, 0, w - r);
      assert n + (w - r) == w * (q + 1);
      MultipleHasNoRest(q + 1, w);
    }
  }

  // ---------------------------------------------------------------- accumulators

  /** An accumulator of which only the low bits matter holds `bits`. */
  ghost predicate Holds(acc: int, bits: Bits) {
    acc % Pow2(|bits|) == FromBits(bits)
  }

  const WORD := 0x1_0000_0000

  lemma WordIsPow2()
    ensures Pow2(32) == WORD
  {
    assert Pow2(8) == 256 && Pow2(16) == 0x1_0000 by {
      Pow2Sum(8, 8);
    }
    Pow2Sum(16, 16);
  }

  /** Equal modulo 2^32 means equal in the low bits. */
  lemma LowBits(a: int, b: int, k: nat)
    requires a % WORD == b % WORD && k <= 32
    ensures a % Pow2(k) == b % Pow2(k)
  {
    WordIsPow2();
    Pow2Sum(k, 32 - k);
    ModOfProduct(a, Pow2(k), Pow2(32 - k));
    ModOfProduct(b, Pow2(k), Pow2(32 - k));
  }

  /** Shifting in `w` bits, with wrap-around at 32. */
  lemma ShiftIn(acc: int, bits: Bits, d: nat, w: nat, next: int)
    requires Holds(acc, bits) && d < Pow2(w) && |bits| + w <= 32
    requires next % WORD == (acc * Pow2(w) + d) % WORD
    ensures Holds(next, bits + ToBits(d, w))
  {
    LowBits(next, acc * Pow2(w) + d, |bits| + w);
    FromBitsSum(bits, ToBits(d, w));
    FromToBits(d, w);
    Pow2Sum(|bits|, w);
    ModOfShift(acc, Pow2(|bits|), Pow2(w), d);
  }

  /** Shifting out the top `w` of the bits held. */
  lemma ShiftOut(acc: int, bits: Bits, w: nat)
    requires Holds(acc, bits) && w <= |bits|
    ensures (acc / Pow2(|bits| - w)) % Pow2(w) == FromBits(bits[..w])
    ensures Holds(acc, bits[w..])
  {
    assert bits == bits[..w] + bits[w..];
    FromBitsSum(bits[..w], bits[w..]);
    FromBitsBound(bits[..w]);
    FromBitsBound(bits[w..]);
    Pow2Sum(w, |bits| - w);
    DivOfShift(acc, Pow2(|bits| - w), Pow2(w), FromBits(bits[..w]), FromBits(bits[w..]));
  }

  /** `all` has been regrouped into `ds` up to the bits in `pending`. */
  ghost predicate Regrouped(all: Bits, ds: seq<nat>, w: nat, pending: Bits) {
    all == Unpack(ds, w) + pending && Fit(ds, w)
  }

  lemma Grow(all: Bits, ds: seq<nat>, w: nat, pending: Bits, more: Bits)
    requires Regrouped(all, ds, w, pending)
    ensures Regrouped(all + more, ds, w, pending + more)
  {
    assert (Unpack(ds, w) + pending) + more == Unpack(ds, w) + (pending + more);
  }

  lemma Emit(all: Bits, ds: seq<nat>, w: nat, pending: Bits)
    requires Regrouped(all, ds, w, pending) && w <= |pending|
    ensures Regrouped(all, ds + [FromBits(pending[..w])], w, pending[w..])
  {
    var d := FromBits(pending[..w]);
    ToFromBits(pending[..w]);
    FromBitsBound(pending[..w]);
    UnpackSum(ds, [d], w);
    UnpackOne(d, w);
    assert pending == pending[..w] + pending[w..];
    assert Unpack(ds, w) + (pending[..w] + pending[w..]) == (Unpack(ds, w) + pending[..w]) + pending[w..];
  }

  lemma {:induction false} ZeroBits(w: nat)
    ensures ToBits(0, w) == Zeros(w)
    decreases w
  {
    if w > 0 {
      ZeroBits(w - 1);
    }
  }

  /** How much padding is due when `pending` bits are left over. */
  lemma PaddingDue(all: Bits, ds: seq<nat>, w: nat, pending: Bits)
    requires w > 0 && Regrouped(all, ds, w, pending) && |pending| < w
    ensures (w - |all| % w) % w == if pending == [] then 0 else w - |pending|
  {
    DivModUnique(|all|, w, |ds|, |pending|);
  }

  /** Regrouping is finished when nothing is pending. */
  lemma Finished(all: Bits, ds: seq<nat>, w: nat, pending: Bits)
    requires w > 0 && Regrouped(all, ds, w, pending) && |pending| < w
    ensures Pack(all, w) == ds
  {
    PackUnpack(ds, pending, w);
  }

  // ---------------------------------------------------------------- what regrouping means

  /** The number that digits spell in base `b`, highest first. */
  function Horner(ds: seq<nat>, b: nat): nat {
    if ds == [] then 0 else Horner(ds[..|ds| - 1], b) * b + ds[|ds| - 1]
  }

  lemma {:induction false} UnpackedNumber(ds: seq<nat>, w: nat)
    requires Fit(ds, w)
    ensures FromBits(Unpack(ds, w)) == Horner(ds, Pow2(w))
    decreases |ds|
  {
    if ds != [] {
      var front, last := ds[..|ds| - 1], ds[|ds| - 1];
      assert ds == front + [last];
      UnpackedNumber(front, w);
      UnpackSum(front, [last], w);
      UnpackOne(last, w);
      FromBitsSum(Unpack(front, w), ToBits(last, w));
      FromToBits(last, w);
    }
  }

  lemma {:induction false} ZerosAreZero(k: nat)
    ensures FromBits(Zeros(k)) == 0
  {
    if k > 0 {
      assert Zeros(k)[1..] == Zeros(k - 1);
      ZerosAreZero(k - 1);
    }
  }

  lemma PaddedNumber(bits: Bits, w: nat, pad: nat)
    requires w > 0 && pad == (w - |bits| % w) % w
    ensures FromBits(Padded(bits, w)) == FromBits(bits) * Pow2(pad) && |Padded(bits, w)| == |bits| + pad
  {
    FromBitsSum(bits, Zeros(pad));
    ZerosAreZero(pad);
  }

  lemma PackedNumber(bits: Bits, w: nat)
    requires w > 0 && |bits| % w == 0
    ensures Horner(Pack(bits, w), Pow2(w)) == FromBits(bits) && w * |Pack(bits, w)| == |bits|
  {
    UnpackPack(bits, w);
    UnpackedNumber(Pack(bits, w), w);
  }

  /** The digits of `w` bits spell the number that the digits of `v` bits spell, followed by the
      zero bits that fill the last digit, and there are no more of them than that takes. */
  lemma RegroupedNumber(ds: seq<nat>, v: nat, w: nat)
    requires w > 0 && Fit(ds, v)
    ensures var pad := (w - (v * |ds|) % w) % w;
            var out := Pack(Padded(Unpack(ds, v), w), w);
            && Horner(out, Pow2(w)) == Horner(ds, Pow2(v)) * Pow2(pad)
            && w * |out| == v * |ds| + pad
  {
    var bits := Unpack(ds, v);
    var pad := (w - |bits| % w) % w;
    PaddedFits(|bits|, w);
    PaddedNumber(bits, w, pad);
    PackedNumber(Padded(bits, w), w);
    UnpackedNumber(ds, v);
  }
}
