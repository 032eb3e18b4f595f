module Cidr {
  // CIDR membership by bit masks is equality of arithmetic prefixes
  // (packages/rate-limit/src/ip.ts).

  function Pow2(n: nat): (p: nat)
    ensures p >= 1
  {
    if n == 0 then 1 else 2 * Pow2(n - 1)
  }

  /** `a & b` on non-negative integers, bit by bit. */
  function And(a: nat, b: nat): nat {
    if a == 0 || b == 0 then 0 else 2 * And(a / 2, b / 2) + (if a % 2 == 1 && b % 2 == 1 then 1 else 0)
  }

  /** `v` shifted right by `s` bits. */
  function Shr(v: nat, s: nat): nat {
    if s == 0 then v else Shr(v / 2, s - 1)
  }

  lemma Distributes(a: int, b: int, p: int)
    ensures (a - b) * p == a * p - b * p
  {}

  lemma AtLeast(a: int, p: nat)
    requires a >= 1
    ensures a * p >= p
  {
    Distributes(a, 1, p);
    assert (a - 1) * p >= 0;
  }

  /** Quotient and remainder are unique. */
  lemma QuotientIsUnique(p: nat, q: int, r: nat, q': int, r': nat)
    requires q * p + r == q' * p + r' && r < p && r' < p
    ensures q == q' && r == r'
  {
    Distributes(q, q', p);
    Distributes(q', q, p);
    if q > q' { AtLeast(q - q', p); }
    if q < q' { AtLeast(q' - q, p); }
  }

  lemma DivideBack(v: nat, p: nat, q: nat, r: nat)
    requires r < p && v == q * p + r
    ensures v / p == q && v % p == r
  {
    assert v == (v / p) * p + v % p;
    QuotientIsUnique(p, q, r, v / p, v % p);
  }

  /** A product, named so that it can be handled as a whole. */
  function Times(a: nat, b: nat): nat { a * b }

  lemma TimesDoubles(a: nat, p: nat)
    ensures Times(a, 2 * p) == 2 * Times(a, p)
  {
    Doubles(a, p);
  }

  lemma Doubles(a: int, p: int)
    ensures a * (2 * p) == 2 * (a * p)
  {}

  /** Halving first, then dividing. */
  lemma HalfThenDivide(v: nat, p: nat)
    requires p >= 1
    ensures v / (2 * p) == (v / 2) / p
    ensures v % (2 * p) == 2 * ((v / 2) % p) + v % 2
  {
    var q, r := (v / 2) / p, (v / 2) % p;
    assert v / 2 == q * p + r;
    Doubles(q, p);
    DivideBack(v, 2 * p, q, 2 * r + v % 2);
  }

  /** Shifting is division by the power of two. */
  lemma {:induction false} ShrDivides(v: nat, s: nat)
    ensures Shr(v, s) == v / Pow2(s)
  {
    if s > 0 {
      ShrDivides(v / 2, s - 1);
      HalfThenDivide(v, Pow2(s - 1));
    }
  }

  /** The mask of `n` ones above `s` zeros. */
  function Mask(n: nat, s: nat): nat {
    Times(Pow2(n) - 1, Pow2(s))
  }

  lemma AndEven(v: nat, m: nat)
    ensures And(v, 2 * m) == 2 * And(v / 2, m)
  {}

  lemma AndOdd(v: nat, m: nat)
    ensures And(v, 2 * m + 1) == 2 * And(v / 2, m) + v % 2
  {}

  /** The remainder, named so that it can be handled as a whole. */
  function Cut(v: nat, p: nat): nat
    requires p >= 1
  {
    v % p
  }

  lemma CutHalves(v: nat, p: nat)
    requires p >= 1
    ensures Cut(v, 2 * p) == 2 * Cut(v / 2, p) + v % 2
  {
    HalfThenDivide(v, p);
  }

  lemma OnesDouble(n: nat)
    requires n > 0
    ensures Pow2(n) - 1 == 2 * (Pow2(n - 1) - 1) + 1 && Pow2(n) == 2 * Pow2(n - 1)
  {}

  /** Masking with all ones is taking the remainder. */
  lemma {:induction false} AndIsRemainder(v: nat, n: nat)
    ensures And(v, Pow2(n) - 1) == Cut(v, Pow2(n))
  {
    hide And, Pow2, Cut;
    if n == 0 {
      AndNothing(v);
    } else {
      OnesDouble(n);
      AndIsRemainder(v / 2, n - 1);
      AndOdd(v, Pow2(n - 1) - 1);
      CutHalves(v, Pow2(n - 1));
    }
  }

  lemma AndNothing(v: nat)
    ensures Pow2(0) == 1 && And(v, 0) == 0 && Cut(v, 1) == 0
  {}

  lemma MaskDoubles(n: nat, s: nat)
    requires s > 0
    ensures Mask(n, s) == 2 * Mask(n, s - 1)
  {
    hide Times;
    TimesDoubles(Pow2(n) - 1, Pow2(s - 1));
  }

  lemma PrefixDoubles(v: nat, s: nat)
    requires s > 0
    ensures Times(Shr(v, s), Pow2(s)) == 2 * Times(Shr(v / 2, s - 1), Pow2(s - 1))
  {
    hide Times;
    TimesDoubles(Shr(v / 2, s - 1), Pow2(s - 1));
  }

  lemma AndAllOnes(v: nat, n: nat)
    requires v < Pow2(n)
    ensures And(v, Mask(n, 0)) == Times(Shr(v, 0), Pow2(0))
  {
    AndIsRemainder(v, n);
    ShrHalves(v, 0);
    TimesOne();
    hide And, Times, Shr;
    SmallRemainder(v, Pow2(n));
  }

  lemma TimesOne()
    ensures Pow2(0) == 1 && forall a :: Times(a, 1) == a
  {}

  lemma SmallRemainder(v: nat, p: nat)
    requires v < p
    ensures Cut(v, p) == v
  {
    DivideBack(v, p, 0, v);
  }

  lemma ShrHalves(v: nat, s: nat)
    ensures s > 0 ==> Shr(v, s) == Shr(v / 2, s - 1)
    ensures Shr(v, 0) == v
  {}

  /** Masking keeps the shifted prefix and nothing else. */
  lemma {:induction false} AndMask(v: nat, n: nat, s: nat)
    requires Shr(v, s) < Pow2(n)
    ensures And(v, Mask(n, s)) == Times(Shr(v, s), Pow2(s))
  {
    hide Times, And, Mask, Pow2, Shr;
    ShrHalves(v, s);
    if s == 0 {
      AndAllOnes(v, n);
    } else {
      AndMask(v / 2, n, s - 1);
      MaskDoubles(n, s);
      AndEven(v, Mask(n, s - 1));
      PrefixDoubles(v, s);
    }
  }

  lemma TimesIsInjective(a: nat, b: nat, p: nat)
    requires p >= 1
    ensures Times(a, p) == Times(b, p) <==> a == b
  {
    if a * p == b * p { QuotientIsUnique(p, a, 0, b, 0); }
  }

  /** Equal under the mask exactly when equal as shifted prefixes. */
  lemma MaskComparesPrefixes(v: nat, w: nat, n: nat, s: nat)
    requires Shr(v, s) < Pow2(n) && Shr(w, s) < Pow2(n)
    ensures And(v, Mask(n, s)) == And(w, Mask(n, s)) <==> Shr(v, s) == Shr(w, s)
  {
    AndMask(v, n, s);
    AndMask(w, n, s);
    TimesIsInjective(Shr(v, s), Shr(w, s), Pow2(s));
  }

  lemma {:induction false} ShrIsSmall(v: nat, n: nat, s: nat)
    requires v < Pow2(n + s)
    ensures Shr(v, s) < Pow2(n)
  {
    if s > 0 { ShrIsSmall(v / 2, n, s - 1); }
  }

  // ---- Version 4 ----

  /** The 32-bit mask as the source computes it: ones shifted left, then cut to 32 bits. */
  function Mask4(prefix: nat): nat
    requires prefix <= 32
  {
    if prefix == 32 then 0xffff_ffff else (0xffff_ffff * Pow2(32 - prefix)) % 0x1_0000_0000
  }

  /** `ipv4InCidr` */
  predicate Ipv4InCidr(value: nat, network: nat, prefix: nat)
    requires prefix <= 32
  {
    prefix == 0 || And(value, Mask4(prefix)) == And(network, Mask4(prefix))
  }

  lemma {:induction false} Pow2Adds(a: nat, b: nat)
    ensures Pow2(a + b) == Times(Pow2(a), Pow2(b))
  {
    if a > 0 {
      Pow2Adds(a - 1, b);
      Pow2Step(a);
      Pow2Step(a + b);
      hide *;
      DoubleTimes(Pow2(a - 1), Pow2(b));
    } else {
      assert Pow2(0) == 1;
    }
  }

  lemma Pow2Step(n: nat)
    requires n > 0
    ensures Pow2(n) == 2 * Pow2(n - 1)
  {}

  lemma DoubleTimes(p: nat, q: nat)
    ensures Times(2 * p, q) == 2 * Times(p, q)
  {}

  lemma Pow2Values()
    ensures Pow2(0) == 1 && Pow2(8) == 256 && Pow2(16) == 0x1_0000 && Pow2(32) == 0x1_0000_0000
  {
    assert Pow2(4) == 16;
    Pow2Adds(4, 4);
    Pow2Adds(8, 8);
    Pow2Adds(16, 16);
  }

  lemma CutArithmetic(n: nat, t: nat, a: nat)
    requires n == Times(a, t) && a >= 1 && t >= 1
    ensures n >= 1 && Cut(Times(n - 1, t), n) == Times(a - 1, t)
  {
    AtLeast(a, t);
    Distributes(n, 1, t);
    Distributes(a, 1, t);
    Distributes(t, 1, n);
    var r := n - t;
    assert (n - 1) * t == (t - 1) * n + r && r == (a - 1) * t;
    DivideBack((n - 1) * t, n, t - 1, r);
  }

  /** Ones shifted left by `s` and cut to the `k + s` bits they were are the top `k` ones. */
  lemma CutMask(k: nat, s: nat)
    ensures Cut(Times(Pow2(k + s) - 1, Pow2(s)), Pow2(k + s)) == Mask(k, s)
  {
    Pow2Adds(k, s);
    CutArithmetic(Pow2(k + s), Pow2(s), Pow2(k));
  }

  lemma FullMask()
    ensures Mask(16, 0) == 0xffff && Mask(32, 0) == 0xffff_ffff
  {
    Pow2Values();
  }

  lemma Mask4IsMask(prefix: nat)
    requires prefix <= 32
    ensures Mask4(prefix) == Mask(prefix, 32 - prefix)
  {
    hide Cut, Mask, Pow2;
    Pow2Values();
    FullMask();
    CutMask(prefix, 32 - prefix);
    TimesIs(0xffff_ffff, Pow2(32 - prefix));
  }

  lemma TimesIs(a: nat, b: nat)
    requires b >= 1
    ensures Times(a, b) == a * b && forall p: nat :: p >= 1 ==> Cut(a * b, p) == (a * b) % p
  {}

  /** For every prefix length: inside the block exactly when the quotients by 2^(32 - p) agree. */
  lemma Ipv4MasksArePrefixes(value: nat, network: nat, prefix: nat)
    requires value < 0x1_0000_0000 && network < 0x1_0000_0000 && prefix <= 32
    ensures Ipv4InCidr(value, network, prefix) <==> value / Pow2(32 - prefix) == network / Pow2(32 - prefix)
  {
    Pow2Values();
    ShrDivides(value, 32 - prefix);
    ShrDivides(network, 32 - prefix);
    ShrIsSmall(value, prefix, 32 - prefix);
    ShrIsSmall(network, prefix, 32 - prefix);
    Mask4IsMask(prefix);
    hide And, Mask, Mask4, Pow2;
    MaskComparesPrefixes(value, network, prefix, 32 - prefix);
  }

  // ---- Version 6 ----

  predicate IsGroups(g: seq<nat>) {
    |g| == 8 && forall i :: 0 <= i < 8 ==> g[i] < 0x1_0000
  }

  /** The number of the first `i` groups. */
  function Head(g: seq<nat>, i: nat): nat
    requires i <= |g|
  {
    if i == 0 then 0 else Head(g, i - 1) * 0x1_0000 + g[i - 1]
  }

  /** The 128-bit number of an address. */
  function Value(g: seq<nat>): nat
    requires |g| == 8
  {
    Head(g, 8)
  }

  lemma {:induction false} ShrAdds(v: nat, a: nat, b: nat)
    ensures Shr(v, a + b) == Shr(Shr(v, a), b)
  {
    if a > 0 { ShrAdds(v / 2, a - 1, b); }
  }

  lemma ShrStep(v: nat, k: nat)
    requires k > 0
    ensures Shr(v, k) == Shr(v / 2, k - 1)
  {}

  lemma HalfOfJoined(h: nat, p: nat, x: nat)
    ensures (h * (2 * p) + x) / 2 == h * p + x / 2
  {
    assert h * (2 * p) == 2 * (h * p);
  }

  /** Shifting part of a low digit out. */
  lemma {:induction false} ShrJoined(h: nat, x: nat, n: nat, k: nat)
    requires k <= n
    ensures Shr(h * Pow2(n) + x, k) == h * Pow2(n - k) + Shr(x, k)
  {
    if k > 0 {
      hide Shr, Pow2;
      var v, p := h * Pow2(n) + x, Pow2(n - 1);
      assert v / 2 == h * p + x / 2 by {
        Pow2Step(n);
        HalfOfJoined(h, p, x);
      }
      ShrStep(v, k);
      ShrStep(x, k);
      ShrJoined(h, x / 2, n - 1, k - 1);
    }
  }

  /** Dropping the groups after the first `i`. */
  lemma {:induction false} DropGroups(g: seq<nat>, i: nat, j: nat)
    requires IsGroups(g) && i <= j <= 8
    ensures Shr(Head(g, j), 16 * (j - i)) == Head(g, i)
    decreases j
  {
    if i < j {
      Pow2Values();
      ShrAdds(Head(g, j), 16, 16 * (j - 1 - i));
      ShrJoined(Head(g, j - 1), g[j - 1], 16, 16);
      ShrIsSmall(g[j - 1], 0, 16);
      assert Shr(Head(g, j), 16) == Head(g, j - 1);
      DropGroups(g, i, j - 1);
    }
  }

  lemma HeadStep(g: seq<nat>, i: nat)
    requires i < |g|
    ensures Head(g, i + 1) == Head(g, i) * 0x1_0000 + g[i]
  {}

  /** The first `16 * i + b` bits of an address. */
  lemma PrefixBits(g: seq<nat>, i: nat, b: nat)
    requires IsGroups(g) && i < 8 && 0 < b <= 16
    ensures Shr(Value(g), 128 - (16 * i + b)) == Head(g, i) * Pow2(b) + Shr(g[i], 16 - b)
    ensures Shr(g[i], 16 - b) < Pow2(b)
  {
    hide Shr, Head, Pow2;
    Pow2Values();
    assert 16 * (8 - (i + 1)) + (16 - b) == 128 - (16 * i + b);
    ShrAdds(Value(g), 16 * (8 - (i + 1)), 16 - b);
    DropGroups(g, i + 1, 8);
    HeadStep(g, i);
    ShrJoined(Head(g, i), g[i], 16, 16 - b);
    ShrIsSmall(g[i], b, 16 - b);
  }

  lemma DigitsAreUnique(h: nat, x: nat, k: nat, y: nat, p: nat)
    requires p >= 1 && x < p && y < p
    ensures h * p + x == k * p + y <==> h == k && x == y
  {
    if h * p + x == k * p + y {
      QuotientIsUnique(p, h, x, k, y);
    }
  }

  /** The 16-bit mask of the top `bits` ones, as the source computes it. */
  function Mask6(bits: nat): nat
    requires bits <= 16
  {
    if bits == 16 then 0xffff else And(0xffff * Pow2(16 - bits), 0xffff)
  }

  lemma Mask6IsMask(bits: nat)
    requires bits <= 16
    ensures Mask6(bits) == Mask(bits, 16 - bits)
  {
    hide And, Cut, Mask, Pow2;
    Pow2Values();
    CutMask(bits, 16 - bits);
    if bits < 16 {
      AndIsRemainder(0xffff * Pow2(16 - bits), 16);
    } else {
      FullMask();
    }
  }

  lemma GroupMasksArePrefixes(a: nat, b: nat, bits: nat)
    requires a < 0x1_0000 && b < 0x1_0000 && 0 < bits <= 16
    ensures And(a, Mask6(bits)) == And(b, Mask6(bits)) <==> Shr(a, 16 - bits) == Shr(b, 16 - bits)
  {
    Pow2Values();
    Mask6IsMask(bits);
    ShrIsSmall(a, bits, 16 - bits);
    ShrIsSmall(b, bits, 16 - bits);
    MaskComparesPrefixes(a, b, bits, 16 - bits);
  }

  /** The first `k` bits agree. */
  predicate Agree(g: seq<nat>, w: seq<nat>, k: nat)
    requires |g| == 8 && |w| == 8 && k <= 128
  {
    Shr(Value(g), 128 - k) == Shr(Value(w), 128 - k)
  }

  lemma AgreeOnNone(g: seq<nat>, w: seq<nat>)
    requires IsGroups(g) && IsGroups(w)
    ensures Agree(g, w, 0)
  {
    DropGroups(g, 0, 8);
    DropGroups(w, 0, 8);
  }

  lemma AgreeOnGroups(g: seq<nat>, w: seq<nat>, i: nat)
    requires IsGroups(g) && IsGroups(w) && i <= 8
    ensures Agree(g, w, 16 * i) <==> Head(g, i) == Head(w, i)
  {
    DropGroups(g, i, 8);
    DropGroups(w, i, 8);
  }

  /** One group more: its masked bits decide. */
  lemma AgreeOnMore(g: seq<nat>, w: seq<nat>, i: nat, bits: nat)
    requires IsGroups(g) && IsGroups(w) && i < 8 && 0 < bits <= 16
    ensures Agree(g, w, 16 * i + bits) <==> Agree(g, w, 16 * i) && And(g[i], Mask6(bits)) == And(w[i], Mask6(bits))
  {
    hide Shr, Head, Pow2, And, Mask6;
    AgreeOnGroups(g, w, i);
    GroupMasksArePrefixes(g[i], w[i], bits);
    PrefixBits(g, i, bits);
    PrefixBits(w, i, bits);
    DigitsAreUnique(Head(g, i), Shr(g[i], 16 - bits), Head(w, i), Shr(w[i], 16 - bits), Pow2(bits));
  }

  /** Fewer bits of an equal prefix agree too. */
  lemma AgreeOnFewer(g: seq<nat>, w: seq<nat>, k: nat, less: nat)
    requires |g| == 8 && |w| == 8 && less <= k <= 128
    ensures Agree(g, w, k) ==> Agree(g, w, less)
  {
    ShrAdds(Value(g), 128 - k, k - less);
    ShrAdds(Value(w), 128 - k, k - less);
  }

  lemma AgreeIsQuotient(g: seq<nat>, w: seq<nat>, k: nat)
    requires |g| == 8 && |w| == 8 && k <= 128
    ensures Agree(g, w, k) <==> Value(g) / Pow2(128 - k) == Value(w) / Pow2(128 - k)
  {
    ShrDivides(Value(g), 128 - k);
    ShrDivides(Value(w), 128 - k);
  }

  /** `ipv6InCidr`: for every prefix length, the loop over the groups answers whether the
      128-bit quotients by 2^(128 - p) agree. */
  method Ipv6InCidr(groups: seq<nat>, network: seq<nat>, prefix: nat) returns (r: bool)
    requires IsGroups(groups) && IsGroups(network) && prefix <= 128
    ensures r <==> Value(groups) / Pow2(128 - prefix) == Value(network) / Pow2(128 - prefix)
  {
    hide Agree, And, Mask6, Pow2, Value;
    AgreeIsQuotient(groups, network, prefix);
    AgreeOnNone(groups, network);
    var remaining, i := prefix, 0;
    while i < 8 && remaining > 0
      invariant 0 <= i <= 8 && 0 <= remaining <= prefix && (remaining > 0 ==> prefix - remaining == 16 * i)
      invariant Agree(groups, network, prefix - remaining)
    {
      var bits := if remaining < 16 then remaining else 16;
      AgreeOnMore(groups, network, i, bits);
      if And(groups[i], Mask6(bits)) != And(network[i], Mask6(bits)) {
        AgreeOnFewer(groups, network, prefix, 16 * i + bits);
        return false;
      }
      remaining := remaining - bits;
      i := i + 1;
    }
    return true;
  }
}
