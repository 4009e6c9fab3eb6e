/**
 * Record identifiers. The store replaces the random `generateId` of
 * src/utils/db.js:13-17 by a counter: the k-th id it hands out is `MintId(k)`,
 * the string "id_" followed by the decimal digits of k. What the rest of the
 * model needs from it is that different counter values give different ids.
 */
module Ids {

  type Id = string

  function DigitChar(d: nat): (c: char)
    requires d < 10
    ensures '0' <= c <= '9'
  {
    (48 + d) as char
  }

  /** The decimal numeral of `k`, most significant digit first. */
  function Decimal(k: nat): (s: string)
    ensures 1 <= |s|
    ensures k >= 10 ==> 2 <= |s|
    ensures forall i :: 0 <= i < |s| ==> '0' <= s[i] <= '9'
    decreases k
  {
    if k < 10 then [DigitChar(k)] else Decimal(k / 10) + [DigitChar(k % 10)]
  }

  function MintId(k: nat): (id: Id) {
    "id_" + Decimal(k)
  }

  /** The ids drawn while the counter went from `lo` up to `hi`. */
  ghost function IdsBetween(lo: nat, hi: nat): (ids: set<Id>)
    decreases hi
  {
    if hi <= lo then {} else IdsBetween(lo, hi - 1) + {MintId(hi - 1)}
  }

  /** Drawing from `lo` to `mid` and then on to `hi` draws the ids from `lo` to `hi`. */
  lemma {:induction false} IdsBetweenConcat(lo: nat, mid: nat, hi: nat)
    requires lo <= mid <= hi
    ensures IdsBetween(lo, mid) + IdsBetween(mid, hi) == IdsBetween(lo, hi)
    decreases hi
  {
    if mid < hi {
      IdsBetweenConcat(lo, mid, hi - 1);
    }
  }

  lemma {:induction false} DecimalInjective(a: nat, b: nat)
    requires Decimal(a) == Decimal(b)
    ensures a == b
    decreases a
  {
    var s := Decimal(a);
    if a < 10 && b < 10 {
      assert s[0] == DigitChar(a) && s[0] == DigitChar(b);
    } else if a >= 10 && b >= 10 {
      var n := |s|;
      assert s == Decimal(a / 10) + [DigitChar(a % 10)];
      assert s == Decimal(b / 10) + [DigitChar(b % 10)];
      assert s[n - 1] == DigitChar(a % 10) && s[n - 1] == DigitChar(b % 10);
      assert Decimal(a / 10) == s[..n - 1] == Decimal(b / 10);
      DecimalInjective(a / 10, b / 10);
    } else {
      assert false;
    }
  }

  /** Different counter values never give the same id. */
  lemma MintIdInjective(a: nat, b: nat)
    requires MintId(a) == MintId(b)
    ensures a == b
  {
    assert Decimal(a) == MintId(a)[3..] == MintId(b)[3..] == Decimal(b);
    DecimalInjective(a, b);
  }
}
