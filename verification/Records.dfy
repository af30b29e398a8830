/** Files that are a series of records: reading record after record, writing them one after
    the other, and how the two relate. `front` takes one record off the front of a byte
    string; `encode` writes one. */
module Records {
  import opened Bytes
  import opened Sequences
  import opened Wrappers

  datatype Step<T, F> = Stuck(failure: F) | Next(item: T, rest: Bytes)

  /** The records read, and what stopped the reading if there are too few. */
  datatype Parsed<T, F> = Parsed(items: seq<T>, failure: Option<F>)

  /** Up to `count` records, each taken by `front`. */
  function Repeat<T, F>(front: Bytes -> Step<T, F>, b: Bytes, count: nat): Parsed<T, F>
    decreases count, |b|
  {
    if count == 0 then Parsed([], None)
    else match front(b)
      case Stuck(failure) => Parsed([], Some(failure))
      case Next(item, rest) =>
        var parsed := Repeat(front, rest, count - 1);
        Parsed([item] + parsed.items, parsed.failure)
  }

  /** What follows the records that are taken. */
  function Leftover<T, F>(front: Bytes -> Step<T, F>, b: Bytes, count: nat): Bytes
    decreases count, |b|
  {
    if count == 0 then b
    else match front(b)
      case Stuck(_) => b
      case Next(_, rest) => Leftover(front, rest, count - 1)
  }

  function EncodeAll<T>(encode: T -> Bytes, items: seq<T>): Bytes {
    if items == [] then [] else encode(items[0]) + EncodeAll(encode, items[1..])
  }

  function MapAll<T>(f: T -> T, items: seq<T>): (r: seq<T>)
    ensures |r| == |items| && forall i :: 0 <= i < |items| ==> r[i] == f(items[i])
  {
    if items == [] then [] else [f(items[0])] + MapAll(f, items[1..])
  }

  // ---------------------------------------------------------------- reading what was written

  /** `front` takes back what `encode` wrote of every fitting record, as `kept` says. */
  ghost predicate Inverts<T(!new), F>(front: Bytes -> Step<T, F>, encode: T -> Bytes, fits: T -> bool, kept: T -> T) {
    forall x, rest :: fits(x) ==> front(encode(x) + rest) == Next(kept(x), rest)
  }

  lemma {:induction false} RepeatAll<T(!new), F>(
    front: Bytes -> Step<T, F>, encode: T -> Bytes, fits: T -> bool, kept: T -> T, items: seq<T>)
    requires Inverts(front, encode, fits, kept) && forall i :: 0 <= i < |items| ==> fits(items[i])
    ensures Repeat(front, EncodeAll(encode, items), |items|) == Parsed(MapAll(kept, items), None)
    decreases |items|
  {
    if items != [] {
      RepeatAll(front, encode, fits, kept, items[1..]);
    }
  }

  /** No strict prefix of a record is a record. */
  ghost predicate NeedsAll<T(!new), F>(front: Bytes -> Step<T, F>, encode: T -> Bytes) {
    forall x, b :: b < encode(x) ==> front(b).Stuck?
  }

  lemma PrefixOfSum(b: Bytes, x: Bytes, y: Bytes)
    requires b < x + y
    ensures |b| < |x| ==> b < x
    ensures |b| >= |x| ==> b == x + b[|x|..] && b[|x|..] < y
  {
    if |b| < |x| {
      assert b == (x + y)[..|b|] == x[..|b|];
    } else {
      assert b[..|x|] == (x + y)[..|x|] == x;
      assert b[|x|..] == (x + y)[|x|..|b|] == y[..|b| - |x|];
    }
  }

  lemma {:induction false} RepeatPrefix<T(!new), F>(
    front: Bytes -> Step<T, F>, encode: T -> Bytes, fits: T -> bool, kept: T -> T, items: seq<T>, b: Bytes)
    requires Inverts(front, encode, fits, kept) && NeedsAll(front, encode)
    requires forall i :: 0 <= i < |items| ==> fits(items[i])
    requires b < EncodeAll(encode, items)
    ensures Repeat(front, b, |items|).failure.Some?
    decreases |items|
  {
    var first := encode(items[0]);
    PrefixOfSum(b, first, EncodeAll(encode, items[1..]));
    if |b| >= |first| {
      RepeatPrefix(front, encode, fits, kept, items[1..], b[|first|..]);
    }
  }

  // ---------------------------------------------------------------- reading anything

  ghost predicate Shrinks<T, F>(front: Bytes -> Step<T, F>, least: nat) {
    forall b :: front(b).Next? ==> |b| >= least + |front(b).rest|
  }

  lemma {:induction false} RepeatIsBounded<T, F>(front: Bytes -> Step<T, F>, least: nat, b: Bytes, count: nat)
    requires Shrinks(front, least)
    ensures var p := Repeat(front, b, count);
            && least * |p.items| <= |b|
            && |p.items| <= count
            && (|p.items| < count ==> front(Leftover(front, b, count)).Stuck?)
            && p.failure == if |p.items| < count then Some(front(Leftover(front, b, count)).failure) else None
    decreases count
  {
    if count > 0 && front(b).Next? {
      var rest := front(b).rest;
      RepeatIsBounded(front, least, rest, count - 1);
      var n := |Repeat(front, rest, count - 1).items|;
      assert least * (n + 1) == least * n + least;
    }
  }

  /** The record that `front` takes is the one encoded there. */
  ghost predicate Takes<T, F>(front: Bytes -> Step<T, F>, encode: T -> Bytes, fits: T -> bool) {
    forall b :: AreBytes(b) && front(b).Next? ==>
      fits(front(b).item) && AreBytes(front(b).rest) && b == encode(front(b).item) + front(b).rest
  }

  lemma {:induction false} RepeatIsFaithful<T, F>(
    front: Bytes -> Step<T, F>, encode: T -> Bytes, fits: T -> bool, b: Bytes, count: nat)
    requires AreBytes(b) && Takes(front, encode, fits)
    ensures var items := Repeat(front, b, count).items;
            b == EncodeAll(encode, items) + Leftover(front, b, count)
            && forall i :: 0 <= i < |items| ==> fits(items[i])
    decreases count
  {
    if count > 0 && front(b).Next? {
      var item, rest := front(b).item, front(b).rest;
      RepeatIsFaithful(front, encode, fits, rest, count - 1);
      var items := Repeat(front, rest, count - 1).items;
      assert ([item] + items)[1..] == items;
      Associative(encode(item), EncodeAll(encode, items), Leftover(front, rest, count - 1));
    }
  }
}
