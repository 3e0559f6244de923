/**
 * The merchant's configuration and its receipt numbers. A receipt number is
 * the last six digits of the clock reading in milliseconds followed by a
 * random draw in [0, 999] written with three digits; both sources are
 * parameters here.
 */
module Merchant {
  import opened Text

  /** The identifiers every redemption is made on behalf of. */
  datatype Ids = Ids(merchantId: string, locationId: string, posId: string)

  /** The values the application ships with. */
  const Configured := Ids("12121jkqhskja", "salkshq63", "asasuas")

  /** The gift-card service's base address. */
  const ApiBaseUrl := "https://jappygiftcards-api-617831826756.us-central1.run.app/api/v1"

  /**
   * `generateReceiptNumber` for the clock reading `timestamp` and the draw
   * `Math.floor(Math.random() * 1000)`, passed in as `draw`.
   */
  function GenerateReceiptNumber(timestamp: nat, draw: nat): (r: string)
    ensures IsDigits(r)
  {
    var stamp := TakeLast(NatToString(timestamp), 6);
    var random := PadStart(NatToString(draw), 3, '0');
    assert IsDigits(random) by {
      forall i | 0 <= i < |random|
        ensures IsDigit(random[i])
      {
        if i >= |random| - |NatToString(draw)| {
          assert random[i] == random[|random| - |NatToString(draw)|..][i - (|random| - |NatToString(draw)|)];
        }
      }
    }
    stamp + random
  }

  /** A draw Math.random can produce. */
  predicate IsDraw(draw: nat) {
    draw < 1000
  }

  /** A draw in range is written with exactly three digits that read back as the draw. */
  lemma PaddedDraw(draw: nat)
    requires IsDraw(draw)
    ensures var p := PadStart(NatToString(draw), 3, '0');
      |p| == 3 && IsDigits(p) && DigitsToNat(p) == draw
  {
    var s := NatToString(draw);
    if draw > 0 {
      NatToStringLength(draw, 3);
      assert Pow10(3) == 1000;
    }
    var p := PadStart(s, 3, '0');
    var z := p[..|p| - |s|];
    assert p == z + s;
    assert forall i :: 0 <= i < |z| ==> z[i] == p[i];
    DigitsToNatOfZeros(z);
    DigitsToNatAppend(z, s);
    DigitsToNatOfNatToString(draw);
  }

  /**
   * The last `k` digits of `n`'s decimal rendering read as `n` modulo `10^k`:
   * the digits before them count whole multiples of `10^k`.
   */
  lemma LastDigits(n: nat, k: nat)
    requires k > 0
    ensures IsDigits(TakeLast(NatToString(n), k))
    ensures DigitsToNat(TakeLast(NatToString(n), k)) == n % Pow10(k)
  {
    if |NatToString(n)| < k {
      ShortNumber(n, k);
    } else {
      LongNumber(n, k);
    }
  }

  /** LastDigits when `n` has fewer than `k` digits: they are all kept, and `n < 10^k`. */
  lemma ShortNumber(n: nat, k: nat)
    requires 0 < k && |NatToString(n)| < k
    ensures IsDigits(TakeLast(NatToString(n), k))
    ensures DigitsToNat(TakeLast(NatToString(n), k)) == n % Pow10(k)
  {
    assert TakeLast(NatToString(n), k) == NatToString(n);
    DigitsToNatOfNatToString(n);
    if n > 0 {
      NatToStringLength(n, k);
    }
    ModUnique(n, Pow10(k), 0, n);
  }

  /**
   * LastDigits when `n` has at least `k` digits: the digits before the last
   * `k` count whole multiples of `10^k`.
   */
  lemma LongNumber(n: nat, k: nat)
    requires 0 < k <= |NatToString(n)|
    ensures IsDigits(TakeLast(NatToString(n), k))
    ensures DigitsToNat(TakeLast(NatToString(n), k)) == n % Pow10(k)
  {
    var s := NatToString(n);
    SplitDigits(s, k);
    DigitsToNatOfNatToString(n);
    ModUnique(n, Pow10(k), DigitsToNat(s[..|s| - k]), DigitsToNat(TakeLast(s, k)));
  }

  /** A digit string of at least `k` digits is its front times `10^k` plus its last `k` digits. */
  lemma SplitDigits(s: string, k: nat)
    requires IsDigits(s) && 0 < k <= |s|
    ensures IsDigits(s[..|s| - k]) && IsDigits(TakeLast(s, k))
    ensures DigitsToNat(s) == Pow10(k) * DigitsToNat(s[..|s| - k]) + DigitsToNat(TakeLast(s, k))
  {
    var t := TakeLast(s, k);
    var front := s[..|s| - k];
    assert forall i :: 0 <= i < |front| ==> front[i] == s[i];
    assert forall i :: 0 <= i < |t| ==> t[i] == s[|front| + i];
    assert s == front + t;
    DigitsToNatAppend(front, t);
  }

  /** The remainder is the only value in range that differs from `n` by a multiple. */
  lemma ModUnique(n: nat, m: nat, a: nat, r: nat)
    requires m >= 1 && n == m * a + r && r < m
    ensures n % m == r
  {
    var q, s := n / m, n % m;
    assert n == m * q + s && 0 <= s < m;
    if q > a {
      MulMono(m, q, a + 1);
    } else if q < a {
      MulMono(m, a, q + 1);
    }
  }

  lemma MulMono(m: nat, x: nat, y: nat)
    requires x >= y
    ensures m * x >= m * y
  {
  }

  /**
   * With a clock reading of at least six digits and a draw in range, the
   * receipt number is nine digits long.
   */
  lemma ReceiptLength(timestamp: nat, draw: nat)
    requires timestamp >= 100000 && IsDraw(draw)
    ensures |GenerateReceiptNumber(timestamp, draw)| == 9
  {
    NatToStringLength(timestamp, 5);
    assert Pow10(5) == 100000;
    PaddedDraw(draw);
  }

  /**
   * The receipt number splits back into its parts: its last three digits read
   * as the draw, and the digits before them as the clock reading modulo
   * 10^6; as a whole it reads as `(timestamp mod 10^6) * 1000 + draw`.
   */
  lemma ReceiptParts(timestamp: nat, draw: nat)
    requires IsDraw(draw)
    ensures var r := GenerateReceiptNumber(timestamp, draw);
      && |r| >= 4
      && DigitsToNat(r[|r| - 3..]) == draw
      && DigitsToNat(r[..|r| - 3]) == timestamp % 1000000
      && DigitsToNat(r) == timestamp % 1000000 * 1000 + draw
  {
    var r := GenerateReceiptNumber(timestamp, draw);
    var stamp := TakeLast(NatToString(timestamp), 6);
    var random := PadStart(NatToString(draw), 3, '0');
    PaddedDraw(draw);
    LastDigits(timestamp, 6);
    assert Pow10(6) == 1000000;
    assert r == stamp + random;
    assert r[|r| - 3..] == random;
    assert r[..|r| - 3] == stamp;
    DigitsToNatAppend(stamp, random);
    assert Pow10(3) == 1000;
  }

  /** Two draws that differ give different receipt numbers at the same instant. */
  lemma ReceiptDistinguishesDraws(timestamp: nat, d1: nat, d2: nat)
    requires IsDraw(d1) && IsDraw(d2) && d1 != d2
    ensures GenerateReceiptNumber(timestamp, d1) != GenerateReceiptNumber(timestamp, d2)
  {
    ReceiptParts(timestamp, d1);
    ReceiptParts(timestamp, d2);
  }
}
