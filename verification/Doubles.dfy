/**
 Non-negative integers held in IEEE 754 binary64, the only number type of the
 original program. A sum above 2^53 is rounded to a multiple of a power of two,
 ties to the even significand.
 */
module Doubles {

  const SAFE: nat := 0x20_0000_0000_0000

  /** Distance between neighbouring doubles at the magnitude of n. */
  function Ulp(n: nat): (u: nat)
    ensures u >= 1
  {
    if n < SAFE then 1 else 2 * Ulp(n / 2)
  }

  /** The 53 leading bits of n. */
  function Significand(n: nat): nat {
    if n < SAFE then n else Significand(n / 2)
  }

  /** The bits of n below its 53 leading ones. */
  function Tail(n: nat): nat {
    if n < SAFE then 0 else 2 * Tail(n / 2) + n % 2
  }

  predicate IsDouble(n: nat) {
    Tail(n) == 0
  }

  /** Round to nearest, ties to even. */
  function Round(n: nat): nat {
    var u, q, r := Ulp(n), Significand(n), Tail(n);
    if 2 * r < u || (2 * r == u && q % 2 == 0) then q * u else (q + 1) * u
  }

  lemma {:induction false} Split(n: nat)
    ensures n == Significand(n) * Ulp(n) + Tail(n)
    ensures Tail(n) < Ulp(n)
    ensures Significand(n) < SAFE
    ensures n >= SAFE ==> Significand(n) >= SAFE / 2
  {
    if n >= SAFE {
      Split(n / 2);
      var q, u := Significand(n / 2), Ulp(n / 2);
      assert q * (2 * u) == 2 * (q * u);
    }
  }

  lemma RoundKeepsDoubles(n: nat)
    requires IsDouble(n)
    ensures Round(n) == n
  {
    Split(n);
  }

  lemma {:induction false} ScaledIsDouble(k: nat, n: nat)
    requires k <= SAFE
    ensures IsDouble(k * Ulp(n))
  {
    if n >= SAFE {
      ScaledIsDouble(k, n / 2);
      var h := k * Ulp(n / 2);
      assert k * Ulp(n) == 2 * h;
      assert (2 * h) / 2 == h && (2 * h) % 2 == 0;
    } else {
      assert k * Ulp(n) == k;
      assert Tail(SAFE) == 2 * Tail(SAFE / 2);
    }
  }

  lemma {:induction false} RoundIsDouble(n: nat)
    ensures IsDouble(Round(n))
  {
    Split(n);
    ScaledIsDouble(Significand(n), n);
    ScaledIsDouble(Significand(n) + 1, n);
  }

  /** Rounding moves a value by at most one unit in the last place... */
  lemma RoundWithinUlp(n: nat)
    ensures Round(n) <= n + Ulp(n) && n <= Round(n) + Ulp(n)
  {
    Split(n);
    OneMore(Significand(n), Ulp(n));
  }

  lemma OneMore(q: nat, u: nat)
    ensures (q + 1) * u == q * u + u
  {
  }

  /** ...and a unit in the last place is at most one part in 2^52 of the value. */
  lemma {:induction false} UlpIsSmall(n: nat)
    requires n >= SAFE
    ensures Ulp(n) * (SAFE / 2) <= n
  {
    if n / 2 >= SAFE {
      UlpIsSmall(n / 2);
    }
  }

  /** Dropping the low byte of a double above 2^61 drops only zero bits. */
  lemma {:induction false} HighPartIsDouble(h: nat, b: nat)
    requires b < 256
    requires IsDouble(h * 256 + b)
    ensures IsDouble(h)
  {
    if h >= SAFE {
      var n := h * 256 + b;
      Halvings(h, n, 256);
    }
  }

  lemma {:induction false} Halvings(h: nat, n: nat, scale: nat)
    requires h >= SAFE && scale in {1, 2, 4, 8, 16, 32, 64, 128, 256}
    requires h * scale <= n < (h + 1) * scale
    requires IsDouble(n)
    ensures IsDouble(h)
    decreases scale
  {
    if scale > 1 {
      Halvings(h, n / 2, scale / 2);
    }
  }
}
