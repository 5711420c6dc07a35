/**
 * XTL_IRRELEVANT_VTBL_BITS: how many of the lowest bits of a vtbl-pointer
 * carry no information, chosen per build kind unless the user set it, and
 * what dropping that many bits from a pointer means arithmetically.
 *
 * Pointers are modelled as unbounded naturals; dropping `b` bits is `p >> b`,
 * that is division by 2^b.
 */
module VtblBits {
  import opened MsvcTarget

  /** 2^n. */
  function Pow2(n: nat): (r: nat)
    ensures r >= 1
  {
    if n == 0 then 1 else 2 * Pow2(n - 1)
  }

  lemma {:induction false} Pow2Add(a: nat, b: nat)
    ensures Pow2(a + b) == Pow2(a) * Pow2(b)
  {
    if a > 0 {
      Pow2Add(a - 1, b);
      assert Pow2(a + b) == 2 * Pow2(a - 1 + b);
      assert 2 * (Pow2(a - 1) * Pow2(b)) == (2 * Pow2(a - 1)) * Pow2(b);
    }
  }

  lemma {:induction false} Pow2StrictlyIncreasing(a: nat, b: nat)
    requires a < b
    ensures Pow2(a) < Pow2(b)
  {
    if a < b - 1 {
      Pow2StrictlyIncreasing(a, b - 1);
    }
  }

  /** The lowest `b` bits of `p` are all zero: `p` is aligned to 2^b bytes. */
  predicate AlignedTo(p: nat, b: nat) {
    p % Pow2(b) == 0
  }

  /** `p >> b`: the pointer without its `b` lowest bits. */
  function DropIrrelevantBits(p: nat, b: nat): (k: nat)
    ensures k * Pow2(b) <= p < (k + 1) * Pow2(b)
  {
    var m := Pow2(b);
    DivisionBrackets(p, m);
    var k: nat := p / m;
    k
  }

  /** `k << b`: puts `b` zero bits back below `k`. */
  function RestoreBits(k: nat, b: nat): (p: nat)
    ensures AlignedTo(p, b)
    ensures DropIrrelevantBits(p, b) == k
  {
    var p := k * Pow2(b);
    QuotientUnique(p, Pow2(b), k);
    p
  }

  lemma MulMonotone(a: nat, b: nat, m: nat)
    requires a <= b
    ensures a * m <= b * m
  {
    var d := b - a;
    assert b * m == a * m + d * m;
  }

  lemma MulCancelLess(a: nat, b: nat, m: nat)
    requires a * m < b * m
    ensures a < b
  {
    if b <= a {
      MulMonotone(b, a, m);
    }
  }

  /** `p / m` is the multiple count of `m` that brackets `p`. */
  lemma DivisionBrackets(p: nat, m: nat)
    requires m >= 1
    ensures 0 <= p / m
    ensures (p / m) * m <= p < (p / m + 1) * m
  {
    var q := p / m;
    assert p == q * m + p % m;
    assert (q + 1) * m == q * m + m;
  }

  /** Floor division is the only `k` that brackets `p` between multiples of `m`. */
  lemma QuotientUnique(p: nat, m: nat, k: nat)
    requires m >= 1
    requires k * m <= p < (k + 1) * m
    ensures p / m == k && p % m == p - k * m
  {
    var q := p / m;
    DivisionBrackets(p, m);
    MulCancelLess(k, q + 1, m);
    MulCancelLess(q, k + 1, m);
    assert p == q * m + p % m;
  }

  /** Dropping the irrelevant bits of an aligned pointer loses nothing. */
  lemma DropIsLossless(p: nat, b: nat)
    requires AlignedTo(p, b)
    ensures RestoreBits(DropIrrelevantBits(p, b), b) == p
  {
    var k := DropIrrelevantBits(p, b);
    assert p == Pow2(b) * (p / Pow2(b)) + p % Pow2(b);
  }

  /** Distinct aligned vtbl-pointers keep distinct keys. */
  lemma DropIsInjective(p: nat, q: nat, b: nat)
    requires AlignedTo(p, b) && AlignedTo(q, b)
    requires p != q
    ensures DropIrrelevantBits(p, b) != DropIrrelevantBits(q, b)
  {
    DropIsLossless(p, b);
    DropIsLossless(q, b);
  }

  /** An address aligned to 2^b bytes is aligned to every smaller power of two. */
  lemma AlignedToFewerBits(p: nat, b: nat, c: nat)
    requires AlignedTo(p, b)
    requires c <= b
    ensures AlignedTo(p, c)
  {
    DropIsLossless(p, b);
    var k := DropIrrelevantBits(p, b);
    Pow2Add(b - c, c);
    assert p == (k * Pow2(b - c)) * Pow2(c);
    assert p == RestoreBits(k * Pow2(b - c), c);
  }

  /**
   * Choosing a bit count smaller than the alignment keeps keys distinct
   * (it only leaves them sparser).
   */
  lemma FewerBitsStayInjective(p: nat, q: nat, b: nat, c: nat)
    requires AlignedTo(p, b) && AlignedTo(q, b)
    requires p != q && c <= b
    ensures DropIrrelevantBits(p, c) != DropIrrelevantBits(q, c)
  {
    AlignedToFewerBits(p, b, c);
    AlignedToFewerBits(q, b, c);
    DropIsInjective(p, q, c);
  }

  /**
   * Choosing a bit count larger than the true alignment 2^b makes two distinct
   * pointers, both aligned to 2^b, share one key.
   */
  lemma MoreBitsCollide(p: nat, b: nat, c: nat)
    requires AlignedTo(p, c)
    requires b < c
    ensures AlignedTo(p, b) && AlignedTo(p + Pow2(b), b)
    ensures p != p + Pow2(b)
    ensures DropIrrelevantBits(p, c) == DropIrrelevantBits(p + Pow2(b), c)
  {
    AlignedToFewerBits(p, c, b);
    var j := DropIrrelevantBits(p, b);
    DropIsLossless(p, b);
    assert p + Pow2(b) == RestoreBits(j + 1, b);
    var k := DropIrrelevantBits(p, c);
    DropIsLossless(p, c);
    Pow2StrictlyIncreasing(b, c);
    assert k * Pow2(c) <= p + Pow2(b) < (k + 1) * Pow2(c);
    QuotientUnique(p + Pow2(b), Pow2(c), k);
  }

  /** A pointer of `w` bits leaves a key of `w - b` bits. */
  lemma DropShrinksRange(p: nat, b: nat, w: nat)
    requires p < Pow2(w)
    requires b <= w
    ensures DropIrrelevantBits(p, b) < Pow2(w - b)
  {
    var k := DropIrrelevantBits(p, b);
    Pow2Add(w - b, b);
    MulCancelLess(k, Pow2(w - b), Pow2(b));
  }

  /** vtbl alignment in bytes the header records for each MSVC build kind. */
  function VtblAlignment(win64: bool, debug: bool): nat {
    if win64 then (if debug then 8 else 16)
    else (if debug then 4 else 8)
  }

  /** The header's default table for XTL_IRRELEVANT_VTBL_BITS. */
  function DefaultVtblBits(win64: bool, debug: bool): (b: nat)
    ensures Pow2(b) == VtblAlignment(win64, debug)
    ensures 2 <= b <= 4
  {
    if win64 then (if debug then 3 else 4)
    else (if debug then 2 else 3)
  }

  /** The default is the only bit count whose power of two is the recorded alignment. */
  lemma DefaultVtblBitsIsUnique(win64: bool, debug: bool, c: nat)
    requires Pow2(c) == VtblAlignment(win64, debug)
    ensures c == DefaultVtblBits(win64, debug)
  {
    var b := DefaultVtblBits(win64, debug);
    if c < b {
      Pow2StrictlyIncreasing(c, b);
    } else if c > b {
      Pow2StrictlyIncreasing(b, c);
    }
  }

  /** XTL_IRRELEVANT_VTBL_BITS: the user's value if any, else the table. */
  function ResolveVtblBits(t: Target): (b: nat)
    ensures t.userVtblBits.Some? ==> b == t.userVtblBits.value
    ensures t.userVtblBits.None? ==> Pow2(b) == VtblAlignment(t.win64, t.debug) && 2 <= b <= 4
  {
    match t.userVtblBits
    case Some(v) => v
    case None => DefaultVtblBits(t.win64, t.debug)
  }

  /**
   * Without an override, a vtbl-pointer aligned as the header records for the
   * build is recovered exactly from its key.
   */
  lemma DefaultDropIsLossless(t: Target, p: nat)
    requires t.userVtblBits.None?
    requires p % VtblAlignment(t.win64, t.debug) == 0
    ensures RestoreBits(DropIrrelevantBits(p, ResolveVtblBits(t)), ResolveVtblBits(t)) == p
  {
    DropIsLossless(p, ResolveVtblBits(t));
  }
}
