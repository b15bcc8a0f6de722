/**
  Fresh names for capture-avoiding renaming: a base name, the marker "$r" and
  the value of a counter that only grows. The counter is threaded as a number;
  a name is `Older` than a counter value when no later draw can produce it.
 */
module FreshNames {
  import opened CoreIR

  function Digit(d: nat): char
    requires d < 10
  {
    "0123456789"[d]
  }

  function Decimal(n: nat): (s: string)
    ensures |s| > 0
    ensures forall i :: 0 <= i < |s| ==> '0' <= s[i] <= '9'
  {
    if n < 10 then [Digit(n)] else Decimal(n / 10) + [Digit(n % 10)]
  }

  /** The number a string of digits stands for. */
  function Number(s: string): int {
    if s == "" then 0 else 10 * Number(s[..|s| - 1]) + (s[|s| - 1] as int - '0' as int)
  }

  /** Decimal notation: the digits stand for the number, without leading zeros. */
  lemma {:induction false} DecimalIs(n: nat)
    ensures Number(Decimal(n)) == n && (n > 0 ==> Decimal(n)[0] != '0')
  {
    var s := Decimal(n);
    DigitIs(n % 10);
    if n < 10 {
      assert s[..0] == "" && Number(s[..0]) == 0;
    } else {
      DecimalIs(n / 10);
      assert s[..|s| - 1] == Decimal(n / 10);
    }
  }

  lemma DigitIs(d: nat)
    requires d < 10
    ensures Digit(d) as int - '0' as int == d
  {
  }

  lemma {:induction false} DecimalInjective(k: nat, m: nat)
    requires Decimal(k) == Decimal(m)
    ensures k == m
  {
    var s := Decimal(k);
    assert |s| == 1 <==> k < 10;
    assert |s| == 1 <==> m < 10;
    assert s[|s| - 1] == Digit(k % 10) == Digit(m % 10);
    DigitInjective(k % 10, m % 10);
    if k >= 10 {
      assert s[..|s| - 1] == Decimal(k / 10) == Decimal(m / 10);
      DecimalInjective(k / 10, m / 10);
    }
  }

  lemma DigitInjective(a: nat, b: nat)
    requires a < 10 && b < 10 && Digit(a) == Digit(b)
    ensures a == b
  {
  }

  /** The name drawn when the counter reaches `n`. */
  function FreshName(base: Name, n: nat): Name { base + "$r" + Decimal(n) }

  /** Digits that stand for `n`, without leading zeros. */
  predicate Spells(ds: string, n: nat) {
    Number(ds) == n && ds != "" && (n > 0 ==> ds[0] != '0') && forall i :: 0 <= i < |ds| ==> '0' <= ds[i] <= '9'
  }

  /** How a drawn name is spelt. */
  lemma FreshSpelling(base: Name, n: nat)
    ensures exists ds: string :: FreshName(base, n) == base + ['$', 'r'] + ds && Spells(ds, n)
  {
    DecimalIs(n);
    assert FreshName(base, n) == base + ['$', 'r'] + Decimal(n);
  }

  /** Two draws collide only if they are the same draw from the same base. */
  lemma FreshInjective(b: Name, k: nat, b': Name, m: nat)
    requires FreshName(b, k) == FreshName(b', m)
    ensures k == m && b == b'
  {
    var s := FreshName(b, k);
    var dk, dm := Decimal(k), Decimal(m);
    if |dk| < |dm| {
      MarkerClash(b, dk, b', dm);
    } else if |dm| < |dk| {
      MarkerClash(b', dm, b, dk);
    } else {
      assert s[|b| + 2..] == dk && s[|b'| + 2..] == dm;
      DecimalInjective(k, m);
      assert s[..|b|] == b && s[..|b'|] == b';
    }
  }

  /** Digit strings of different length cannot follow the marker in one name. */
  lemma MarkerClash(b: Name, d: string, b': Name, d': string)
    requires |d| < |d'|
    requires forall i :: 0 <= i < |d'| ==> '0' <= d'[i] <= '9'
    ensures b + "$r" + d != b' + "$r" + d'
  {
    var s, s' := b + "$r" + d, b' + "$r" + d';
    if |s| == |s'| {
      var off := |b| - |b'|;
      assert s[|b|] == '$';
      assert s'[|b|] == if off == 1 then 'r' else d'[off - 2];
    }
  }

  ghost predicate Older(x: Name, n: nat) {
    forall b, m :: n < m ==> x != FreshName(b, m)
  }

  lemma OlderLater(x: Name, n: nat, m: nat)
    requires Older(x, n) && n <= m
    ensures Older(x, m)
  {
  }

  /** The next draw is new now and old from then on. */
  lemma FreshIsOlder(b: Name, n: nat)
    ensures Older(FreshName(b, n), n)
  {
    forall b', m | n < m ensures FreshName(b, n) != FreshName(b', m) {
      if FreshName(b, n) == FreshName(b', m) { FreshInjective(b, n, b', m); }
    }
  }
}
