/** Text facts shared by the entry ids and the partition keys: decimal numerals, and
    fields joined by a separator that the last field does not contain. */
module Text {

  /** The decimal numeral of `n`, as `std::to_string` prints it. */
  function Decimal(n: nat): (s: string)
    ensures s != []
    ensures forall c <- s :: '0' <= c <= '9'
  {
    var digit := ['0' + (n % 10) as char];
    if n < 10 then digit else Decimal(n / 10) + digit
  }

  /** The number that decimal digits spell. */
  function Number(s: string): int {
    if s == [] then 0 else Number(s[..|s| - 1]) * 10 + (s[|s| - 1] as int - '0' as int)
  }

  /** The numeral spells its number, without a leading zero. */
  lemma {:induction false} DecimalSpells(n: nat)
    ensures Number(Decimal(n)) == n && (n > 0 ==> Decimal(n)[0] != '0')
  {
    var s := Decimal(n);
    if n >= 10 {
      DecimalSpells(n / 10);
      assert s[..|s| - 1] == Decimal(n / 10);
    } else {
      assert s[..0] == [];
    }
  }

  lemma {:induction false} DecimalInjective(m: nat, n: nat)
    requires Decimal(m) == Decimal(n)
    ensures m == n
  {
    var a, b := Decimal(m), Decimal(n);
    assert a[|a| - 1] == b[|b| - 1];
    assert m % 10 == n % 10;
    if m >= 10 && n >= 10 {
      assert Decimal(m / 10) == a[..|a| - 1] == b[..|b| - 1] == Decimal(n / 10);
      DecimalInjective(m / 10, n / 10);
    }
  }

  lemma LastSeparator<T>(sep: T, a: seq<T>, b: seq<T>)
    requires sep !in b
    ensures (a + [sep] + b)[|a|] == sep
    ensures forall k :: |a| < k < |a + [sep] + b| ==> (a + [sep] + b)[k] != sep
  {
    forall k | |a| < k < |a + [sep] + b| ensures (a + [sep] + b)[k] != sep {
      assert (a + [sep] + b)[k] == b[k - |a| - 1];
    }
  }

  /** Joining with `sep` can be undone when the right-hand field never contains it. */
  lemma JoinInjective<T>(sep: T, a: seq<T>, b: seq<T>, c: seq<T>, d: seq<T>)
    requires a + [sep] + b == c + [sep] + d
    requires sep !in b && sep !in d
    ensures a == c && b == d
  {
    LastSeparator(sep, a, b);
    LastSeparator(sep, c, d);
    assert |a| == |c|;
    var joined := a + [sep] + b;
    assert a == joined[..|a|] == c;
    assert b == joined[|a| + 1..] == d;
  }
}
