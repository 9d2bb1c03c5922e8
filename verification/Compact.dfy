/** The compact form of difficulty targets (CBigNum::SetCompact and GetCompact in src/bignum.h)
    and the retargeting that uses it (src/main.cpp). */
module Compact {
  import opened Arithmetic

  const SIGN := 0x80_0000
  const SIZE_UNIT := 0x100_0000

  function Times(a: nat, b: nat): nat {
    a * b
  }

  function Quotient(a: nat, b: nat): nat
    requires b > 0
  {
    a / b
  }

  /** BN_num_bytes. */
  function Len(n: nat): nat {
    if n == 0 then 0 else 1 + Len(n / 256)
  }

  /** SetCompact, by its bytes: a size, a sign bit and 23 bits of mantissa. */
  function SetCompact(c: nat): int {
    var value := Magnitude(c / SIZE_UNIT, c % SIGN);
    if c / SIGN % 2 == 1 then 0 - value else value
  }

  function Magnitude(size: nat, word: nat): nat {
    if size <= 3 then Quotient(word, Pow(256, 3 - size)) else Times(word, Pow(256, size - 3))
  }

  /** The leading three bytes of a number, as GetCompact cuts them out. */
  function Leading(n: nat): nat {
    var size := Len(n);
    if size <= 3 then Times(n, Pow(256, 3 - size)) else Quotient(n, Pow(256, size - 3))
  }

  /** GetCompact; a size over 255 would lose its high bits in an unsigned int. */
  function GetCompact(n: int): nat {
    var m: nat := if n < 0 then 0 - n else n;
    var word, size := Leading(m), Len(m);
    var (mantissa, exponent) := if word >= SIGN then (word / 256, size + 1) else (word, size);
    mantissa + exponent % 256 * SIZE_UNIT + if n < 0 then SIGN else 0
  }

  // ----- arithmetic

  /** Dividing in two steps. */
  lemma DivDiv(n: nat, p: nat)
    requires p > 0
    ensures n / p / 256 == n / (256 * p)
  {
    var q := n / p;
    var r := q / 256;
    DivBounds(n, p);
    DivBounds(q, 256);
    Associate(r, 256, p);
    MulMonotone(r * 256, q, p);
    assert q + 1 <= r * 256 + 256;
    MulMonotone(q + 1, r * 256 + 256, p);
    assert (r * 256 + 256) * p == r * 256 * p + 256 * p;
    assert (q + 1) * p == q * p + p;
    DivUnique(n, 256 * p, r);
  }

  /** The length is where a number lies between powers of 256. */
  lemma {:induction false} LenBounds(n: nat)
    requires n > 0
    ensures Len(n) >= 1 && Pow(256, Len(n) - 1) <= n < Pow(256, Len(n))
  {
    if n >= 256 {
      LenBounds(n / 256);
    } else {
      assert Len(n / 256) == 0;
      assert Pow(256, 1) == 256 * Pow(256, 0);
    }
  }

  // ----- the round trip

  /** n cut after its first few base-256 digits. */
  function Cut(n: nat, e: nat): nat {
    Times(Quotient(n, Pow(256, e)), Pow(256, e))
  }

  /** e is the number of digits GetCompact drops: none, or as few as leave 23 bits. */
  predicate Drops(n: nat, e: nat) {
    Quotient(n, Pow(256, e)) < SIGN && (e > 0 ==> Quotient(n, Pow(256, e)) >= SIGN / 256)
  }

  lemma SmallPowers()
    ensures Pow(256, 0) == 1 && Pow(256, 1) == 256 && Pow(256, 2) == 65536 && Pow(256, 3) == SIZE_UNIT
  {
    assert Pow(256, 1) == 256 * Pow(256, 0);
    assert Pow(256, 2) == 256 * Pow(256, 1);
    assert Pow(256, 3) == 256 * Pow(256, 2);
  }

  /** Decoding puts the mantissa and the size back together. */
  lemma Decode(mantissa: nat, exponent: nat)
    requires mantissa < SIGN && exponent < 256
    ensures var c := mantissa + exponent % 256 * SIZE_UNIT;
            c < TWO_32 && SetCompact(c) == Magnitude(exponent, mantissa)
  {
    var c := mantissa + exponent * SIZE_UNIT;
    assert c / SIZE_UNIT == exponent;
    assert c / SIGN == 2 * exponent;
    assert c % SIGN == mantissa;
  }

  lemma {:induction false} Encode(n: nat)
    requires Leading(n) / 256 < SIGN && Len(n) < 255
    ensures var word, size := Leading(n), Len(n);
            && GetCompact(n) < TWO_32
            && SetCompact(GetCompact(n)) ==
               if word >= SIGN then Magnitude(size + 1, word / 256) else Magnitude(size, word)
  {
    hide Leading, Len, Magnitude, SetCompact;
    var word, size := Leading(n), Len(n);
    if word >= SIGN {
      Decode(word / 256, size + 1);
    } else {
      Decode(word, size);
    }
  }

  lemma DivExact(n: nat, p: nat)
    requires p > 0
    ensures Quotient(Times(n, p), p) == n
  {
    MulDiv(n, p);
  }

  /** Numbers of at most three bytes. */
  lemma ShortNumber(n: nat) returns (e: nat)
    requires Len(n) <= 3
    ensures Drops(n, e) && SetCompact(GetCompact(n)) == Cut(n, e) && GetCompact(n) < TWO_32
    ensures e == if Len(n) == 3 && Leading(n) >= SIGN then 1 else 0
  {
    var size := Len(n);
    if n > 0 {
      LenBounds(n);
    }
    SmallPowers();
    hide Pow, Len, SetCompact, GetCompact;
    var word := Leading(n);
    if size == 0 {
      assert n == 0 && word == 0;
    } else if size == 1 {
      assert word == n * 65536;
    } else if size == 2 {
      assert word == n * 256;
    } else {
      assert word == n * 1;
    }
    Encode(n);
    e := if size == 3 && word >= SIGN then 1 else 0;
    assert Quotient(n, Pow(256, 0)) == n && Times(n, Pow(256, 0)) == n;
    if size == 0 {
      assert Magnitude(0, 0) == 0;
    } else if size == 1 {
      DivExact(n, 65536);
      DivExact(n, 256);
    } else if size == 2 {
      DivExact(n, 256);
      assert Quotient(n, 1) == n;
    } else {
      assert Quotient(n, 1) == n;
    }
  }

  lemma {:induction false} LongBounds(n: nat)
    requires Len(n) >= 4
    ensures 65536 <= Quotient(n, Pow(256, Len(n) - 3)) < SIZE_UNIT
  {
    LenBounds(n);
    SmallPowers();
    var size := Len(n);
    var p := Pow(256, size - 3);
    hide Len;
    PowAdd(256, 2, size - 3);
    PowAdd(256, 3, size - 3);
    hide Pow;
    DivAtLeast(65536, n, p);
    DivBelow(SIZE_UNIT, n, p);
  }

  /** Numbers of four bytes or more. */
  lemma LongNumber(n: nat) returns (e: nat)
    requires 4 <= Len(n) < 255
    ensures Drops(n, e) && SetCompact(GetCompact(n)) == Cut(n, e) && GetCompact(n) < TWO_32
    ensures e == if Leading(n) >= SIGN then Len(n) - 2 else Len(n) - 3
  {
    var size := Len(n);
    LongBounds(n);
    assert Pow(256, size - 2) == 256 * Pow(256, size - 3);
    DivDiv(n, Pow(256, size - 3));
    hide Len, Pow, SetCompact, GetCompact;
    var word := Leading(n);
    assert word == Quotient(n, Pow(256, size - 3));
    assert word / 256 == Quotient(n, Pow(256, size - 2));
    hide Quotient, Times;
    Encode(n);
    e := if word >= SIGN then size - 2 else size - 3;
  }

  lemma Shape(n: nat) returns (e: nat)
    requires Len(n) < 255
    ensures Drops(n, e) && SetCompact(GetCompact(n)) == Cut(n, e) && GetCompact(n) < TWO_32
  {
    if Len(n) <= 3 {
      e := ShortNumber(n);
    } else {
      e := LongNumber(n);
    }
  }

  // ----- what the round trip means

  /** A value that some compact form stands for. */
  ghost predicate Representable(v: nat) {
    exists c: nat :: c < TWO_32 && SetCompact(c) == v
  }

  /** Every such value is a 23-bit number followed by zero bytes. */
  lemma RepresentableShape(c: nat) returns (w: nat, j: nat)
    requires c < TWO_32 && SetCompact(c) >= 0
    ensures w < SIGN && SetCompact(c) == Times(w, Pow(256, j))
  {
    var size, word := c / SIZE_UNIT, c % SIGN;
    SmallPowers();
    hide Pow;
    if c / SIGN % 2 == 1 {
      w, j := 0, 0;
    } else if size <= 3 {
      w, j := Magnitude(size, word), 0;
      DivBounds(word, Pow(256, 3 - size));
      MulMonotone(1, Pow(256, 3 - size), Quotient(word, Pow(256, 3 - size)));
      assert Times(w, 1) == w;
    } else {
      w, j := word, size - 3;
    }
  }

  lemma {:induction false} MultipleBelow(n: nat, e: nat, w: nat, j: nat)
    requires e <= j && w * Pow(256, j) <= n
    ensures w * Pow(256, j) <= Cut(n, e)
  {
    var p, a := Pow(256, e), Times(w, Pow(256, j - e));
    PowAdd(256, j - e, e);
    Associate(w, Pow(256, j - e), p);
    assert w * Pow(256, j) == a * p;
    assert Cut(n, e) == Quotient(n, p) * p;
    hide Pow, Times;
    DivAtLeast(a, n, p);
    MulMonotone(a, Quotient(n, p), p);
  }

  lemma {:induction false} ShorterBelow(n: nat, e: nat, w: nat, j: nat)
    requires j < e && w < SIGN && Quotient(n, Pow(256, e)) >= SIGN / 256
    ensures w * Pow(256, j) <= Cut(n, e)
  {
    var p, q, s := Pow(256, e), Quotient(n, Pow(256, e)), Pow(256, e - 1);
    assert p == 256 * s;
    PowAdd(256, e - 1 - j, j);
    MulMonotone(1, Pow(256, e - 1 - j), Pow(256, j));
    assert Pow(256, j) <= s;
    hide Pow, Quotient;
    ShorterProduct(w, Pow(256, j), s, q);
  }

  lemma ShorterProduct(w: nat, x: nat, s: nat, q: nat)
    requires w < SIGN && x <= s && q >= SIGN / 256
    ensures w * x <= q * (256 * s)
  {
    MulMonotone(w, SIGN, x);
    MulMonotone(SIGN / 256, q, 256 * s);
  }

  /** No such value lies between the cut and the number. */
  lemma {:induction false} LargestBelow(n: nat, e: nat, w: nat, j: nat)
    requires Drops(n, e) && w < SIGN && w * Pow(256, j) <= n
    ensures w * Pow(256, j) <= Cut(n, e)
  {
    hide Pow, Quotient, Cut;
    if j >= e {
      MultipleBelow(n, e, w, j);
    } else {
      ShorterBelow(n, e, w, j);
    }
  }

  /** GetCompact then SetCompact gives the largest representable value not above n, and loses less
      than one part in 2^15. */
  lemma {:induction false} RoundTripIsFloor(n: nat)
    requires Len(n) < 255
    ensures var r := SetCompact(GetCompact(n));
            && GetCompact(n) < TWO_32
            && 0 <= r <= n && Representable(r)
            && (forall v: nat | Representable(v) && v <= n :: v <= r)
            && (n > 0 ==> r > 0 && (n - r) * 0x8000 < n)
  {
    var e := Shape(n);
    var r: int := SetCompact(GetCompact(n));
    hide SetCompact, GetCompact, Len, Pow, Quotient, Times, Cut, Drops;
    CutLoss(n, e);
    forall v: nat | Representable(v) && v <= n
      ensures v <= r
    {
      var c: nat :| c < TWO_32 && SetCompact(c) == v;
      var w, j := RepresentableShape(c);
      CutIsLargest(n, e, w, j);
    }
  }

  lemma {:induction false} CutIsLargest(n: nat, e: nat, w: nat, j: nat)
    requires Drops(n, e) && w < SIGN && Times(w, Pow(256, j)) <= n
    ensures Times(w, Pow(256, j)) <= Cut(n, e)
  {
    hide Pow, Cut, Drops;
    LargestBelow(n, e, w, j);
  }

  /** What is cut off is less than one part in 2^15. */
  lemma CutLoss(n: nat, e: nat)
    requires Drops(n, e)
    ensures Cut(n, e) <= n && (n > 0 ==> Cut(n, e) > 0 && (n - Cut(n, e)) * 0x8000 < n)
  {
    var p, q := Pow(256, e), Quotient(n, Pow(256, e));
    DivBounds(n, p);
    assert Cut(n, e) == q * p;
    assert e == 0 ==> p == 1;
    hide Pow, Quotient, Times, Cut;
    if e > 0 {
      MulMonotone(SIGN / 256, q, p);
    }
  }

  /** So the round trip is monotone and idempotent. */
  lemma {:induction false} RoundTripMonotone(a: nat, b: nat)
    requires a <= b && Len(a) < 255 && Len(b) < 255
    ensures SetCompact(GetCompact(a)) <= SetCompact(GetCompact(b))
  {
    RoundTripIsFloor(a);
    RoundTripIsFloor(b);
  }

  lemma {:induction false} LenMonotone(a: nat, b: nat)
    requires a <= b
    ensures Len(a) <= Len(b)
  {
    if a > 0 {
      LenMonotone(a / 256, b / 256);
    }
  }

  lemma {:induction false} RoundTripIdempotent(n: nat)
    requires Len(n) < 255
    ensures var r: int := SetCompact(GetCompact(n));
            r >= 0 && SetCompact(GetCompact(r)) == r
  {
    RoundTripIsFloor(n);
    var r: nat := SetCompact(GetCompact(n));
    LenMonotone(r, n);
    RoundTripIsFloor(r);
  }

  /** The parts of an encoding: the top byte is a number of bytes, the next bit the sign, and the rest
      the leading bytes, which are cut off below three of them. */
  lemma {:induction false} DecodesParts(size: nat, negative: bool, word: nat)
    requires word < 0x80_0000
    ensures var v := SetCompact(size * 0x100_0000 + (if negative then 0x80_0000 else 0) + word);
            var m := if negative then 0 - v else v;
            if size >= 3 then m == word * Pow(256, size - 3)
            else m * Pow(256, 3 - size) <= word < (m + 1) * Pow(256, 3 - size)
  {
    var c := size * 0x100_0000 + (if negative then 0x80_0000 else 0) + word;
    assert c / SIZE_UNIT == size && c % SIGN == word && c / SIGN % 2 == if negative then 1 else 0;
    MagnitudeIs(size, word);
    hide Magnitude, Pow;
  }

  lemma {:induction false} MagnitudeIs(size: nat, word: nat)
    ensures var m := Magnitude(size, word);
            if size >= 3 then m == word * Pow(256, size - 3)
            else m * Pow(256, 3 - size) <= word < (m + 1) * Pow(256, 3 - size)
  {
    if size < 3 {
      var p := Pow(256, 3 - size);
      hide Pow;
      DivBounds(word, p);
    } else if size == 3 {
      assert Pow(256, 0) == 1;
    }
  }

  lemma {:induction false} LeadingBound(n: nat)
    ensures Leading(n) < SIZE_UNIT
  {
    var size := Len(n);
    if n > 0 {
      LenBounds(n);
    }
    if size >= 4 {
      LongBounds(n);
    }
    SmallPowers();
    hide Pow, Len;
    if size == 0 {
      assert Leading(n) == 0;
    } else if size == 1 {
      assert Leading(n) == n * 65536;
    } else if size == 2 {
      assert Leading(n) == n * 256;
    } else if size == 3 {
      assert Leading(n) == n * 1;
    }
  }

  /** A negative number is encoded as its opposite with the sign set, and decoded likewise. */
  lemma {:induction false} NegativeCompact(n: nat)
    requires n > 0
    ensures GetCompact(0 - n) == GetCompact(n) + 0x80_0000
    ensures SetCompact(GetCompact(0 - n)) == 0 - SetCompact(GetCompact(n))
  {
    LeadingBound(n);
    var word, size := Leading(n), Len(n);
    var c := GetCompact(n);
    hide Leading, Len, Magnitude;
    var mantissa, exponent := if word >= SIGN then word / 256 else word, (if word >= SIGN then size + 1 else size) % 256;
    assert c == mantissa + exponent * SIZE_UNIT && mantissa < SIGN;
    var d := c + SIGN;
    assert d / SIZE_UNIT == exponent == c / SIZE_UNIT && d % SIGN == mantissa == c % SIGN;
    assert c / SIGN == 2 * exponent && d / SIGN == 2 * exponent + 1;
  }

  // ----- retargeting

  const TARGET_TIMESPAN := 16 * 60
  const SLOWER_SPACING_HEIGHT := 1_999_856

  /** The fields of a block index entry the retargeting reads. */
  datatype Header = Header(time: int, bits: nat, proofOfStake: bool)

  /** GetLastBlockIndex from entry i of a branch that starts at genesis: the nearest entry of the
      kind, or genesis. */
  method GetLastBlockIndex(chain: seq<Header>, i: nat, proofOfStake: bool) returns (k: nat)
    requires i < |chain|
    ensures k <= i && (k == 0 || chain[k].proofOfStake == proofOfStake)
    ensures forall j | k < j <= i :: chain[j].proofOfStake != proofOfStake
    ensures k == LastOfKind(chain, i, proofOfStake)
  {
    k := i;
    while k > 0 && chain[k].proofOfStake != proofOfStake
      invariant k <= i && forall j | k < j <= i :: chain[j].proofOfStake != proofOfStake
      invariant LastOfKind(chain, k, proofOfStake) == LastOfKind(chain, i, proofOfStake)
    {
      k := k - 1;
    }
  }

  function LastOfKind(chain: seq<Header>, i: nat, proofOfStake: bool): (k: nat)
    requires i < |chain|
    ensures k <= i
  {
    if i == 0 || chain[i].proofOfStake == proofOfStake then i else LastOfKind(chain, i - 1, proofOfStake)
  }

  function Weight(actual: int, spacing: nat): int
    requires spacing > 0
  {
    (TARGET_TIMESPAN / spacing - 1) * spacing + actual + actual
  }

  function Divisor(spacing: nat): (d: nat)
    requires spacing > 0
    ensures d > 0
  {
    (TARGET_TIMESPAN / spacing + 1) * spacing
  }

  /** The target moved by what the last gap weighs. */
  function Scaled(target: int, actual: int, spacing: nat): int
    requires spacing > 0
  {
    TruncDiv(target * Weight(actual, spacing), Divisor(spacing))
  }

  /** The exponential move of a target toward the target spacing, kept within the limit. */
  function NextTarget(target: int, actual: int, spacing: nat, limit: nat): (t: int)
    requires spacing > 0 && limit > 0
    ensures 0 < t <= limit
  {
    var scaled := Scaled(target, actual, spacing);
    if scaled <= 0 || scaled > limit then limit else scaled
  }

  function SpacingAt(chain: seq<Header>, spacing: nat): nat {
    if |chain| - 1 >= SLOWER_SPACING_HEIGHT then 5 * 60 else spacing
  }

  /** The branch has two earlier blocks of the kind after genesis. */
  predicate Retargets(chain: seq<Header>, proofOfStake: bool) {
    && chain != []
    && var prev := LastOfKind(chain, |chain| - 1, proofOfStake);
    && prev > 0 && LastOfKind(chain, prev - 1, proofOfStake) > 0
  }

  /** The target a branch asks of its next block. A negative spacing counts as on target, by the
      spacing in force before the call. */
  function RequiredTarget(chain: seq<Header>, proofOfStake: bool, spacing: nat, limit: nat): (t: int)
    requires spacing > 0 && limit > 0
    ensures 0 < t <= limit
  {
    if chain == [] then limit
    else
      var prev := LastOfKind(chain, |chain| - 1, proofOfStake);
      if prev == 0 then limit
      else
        var prevPrev := LastOfKind(chain, prev - 1, proofOfStake);
        if prevPrev == 0 then limit
        else
          var elapsed := chain[prev].time - chain[prevPrev].time;
          NextTarget(SetCompact(chain[prev].bits), if elapsed < 0 then spacing else elapsed, SpacingAt(chain, spacing), limit)
  }

  /** p and q are the last two blocks of the kind after genesis, q the earlier. */
  predicate LastTwo(chain: seq<Header>, proofOfStake: bool, p: int, q: int) {
    && 0 < q < p < |chain|
    && chain[p].proofOfStake == proofOfStake && chain[q].proofOfStake == proofOfStake
    && (forall i | p < i < |chain| :: chain[i].proofOfStake != proofOfStake)
    && (forall i | q < i < p :: chain[i].proofOfStake != proofOfStake)
  }

  /** x is target t moved by a gap of e seconds for a spacing of s: with n = 960 / s it is
      t * ((n - 1) * s + 2 * e) over (n + 1) * s, rounded down, or the limit when that is nothing or more
      than the limit. */
  predicate Retargeted(x: int, t: int, e: int, s: nat, limit: nat)
    requires s > 0
  {
    var n := 960 / s;
    var product, divisor := t * ((n - 1) * s + 2 * e), (n + 1) * s;
    if product < divisor || product >= (limit + 1) * divisor then x == limit
    else x * divisor <= product < (x + 1) * divisor
  }

  lemma NextTargetIs(t: int, e: int, s: nat, limit: nat)
    requires s > 0 && limit > 0
    ensures Retargeted(NextTarget(t, e, s, limit), t, e, s, limit)
  {
    var product, divisor := t * Weight(e, s), Divisor(s);
    assert Weight(e, s) == (960 / s - 1) * s + 2 * e && divisor == (960 / s + 1) * s;
    hide Weight, Divisor;
    if product < divisor {
      SmallQuotient(product, divisor);
    } else {
      DivBounds(product, divisor);
      if product >= (limit + 1) * divisor {
        DivAtLeast(limit + 1, product, divisor);
      } else {
        DivBelow(limit + 1, product, divisor);
        DivAtLeast(1, product, divisor);
      }
    }
  }

  lemma SmallQuotient(n: int, d: nat)
    requires d > 0 && n < d
    ensures TruncDiv(n, d) <= 0
  {
    if n >= 0 {
      DivBelow(1, n, d);
    } else {
      NonNegativeQuotient(0 - n, d);
    }
  }

  /** What the branch asks for, from the last two blocks of the kind. */
  lemma RequiredIs(chain: seq<Header>, proofOfStake: bool, spacing: nat, limit: nat, p: int, q: int)
    requires spacing > 0 && limit > 0 && LastTwo(chain, proofOfStake, p, q)
    ensures Retargets(chain, proofOfStake)
    ensures var e := chain[p].time - chain[q].time;
            Retargeted(RequiredTarget(chain, proofOfStake, spacing, limit), SetCompact(chain[p].bits),
                       if e < 0 then spacing else e, SpacingAt(chain, spacing), limit)
  {
    hide SetCompact, NextTarget, Retargeted;
    LastOfKindIs(chain, |chain| - 1, proofOfStake, p);
    LastOfKindIs(chain, p - 1, proofOfStake, q);
    var e := chain[p].time - chain[q].time;
    NextTargetIs(SetCompact(chain[p].bits), if e < 0 then spacing else e, SpacingAt(chain, spacing), limit);
  }

  lemma {:induction false} LastOfKindIs(chain: seq<Header>, i: nat, proofOfStake: bool, k: nat)
    requires k <= i < |chain| && (k == 0 || chain[k].proofOfStake == proofOfStake)
    requires forall j | k < j <= i :: chain[j].proofOfStake != proofOfStake
    ensures LastOfKind(chain, i, proofOfStake) == k
  {
    if k < i {
      LastOfKindIs(chain, i - 1, proofOfStake, k);
    }
  }

  /** Without two such blocks the answer is the limit. */
  lemma FewBlocks(chain: seq<Header>, proofOfStake: bool, spacing: nat, limit: nat)
    requires spacing > 0 && limit > 0
    ensures Retargets(chain, proofOfStake) <==> exists p, q :: LastTwo(chain, proofOfStake, p, q)
    ensures !Retargets(chain, proofOfStake) ==> RequiredTarget(chain, proofOfStake, spacing, limit) == limit
  {
    hide NextTarget;
    if Retargets(chain, proofOfStake) {
      var p := LastOfKind(chain, |chain| - 1, proofOfStake);
      var q := LastOfKind(chain, p - 1, proofOfStake);
      NothingAfter(chain, |chain| - 1, proofOfStake);
      NothingAfter(chain, p - 1, proofOfStake);
      assert LastTwo(chain, proofOfStake, p, q);
    }
    forall p, q | LastTwo(chain, proofOfStake, p, q)
      ensures Retargets(chain, proofOfStake)
    {
      RequiredIs(chain, proofOfStake, spacing, limit, p, q);
    }
  }

  lemma {:induction false} NothingAfter(chain: seq<Header>, i: nat, proofOfStake: bool)
    requires i < |chain|
    ensures var k := LastOfKind(chain, i, proofOfStake);
            (k > 0 ==> chain[k].proofOfStake == proofOfStake) && forall j | k < j <= i :: chain[j].proofOfStake != proofOfStake
  {
    if i > 0 && chain[i].proofOfStake != proofOfStake {
      NothingAfter(chain, i - 1, proofOfStake);
    }
  }

  /** GetNextTargetRequiredV2. chain ends in pindexLast and is empty for a null pointer; spacing0 and
      spacing are nTargetSpacing before and after the call. */
  method GetNextTargetRequiredV2(chain: seq<Header>, proofOfStake: bool, spacing0: nat, limit: nat)
    returns (bits: nat, spacing: nat)
    requires spacing0 > 0 && 0 < limit && Len(limit) < 255
    ensures bits == GetCompact(RequiredTarget(chain, proofOfStake, spacing0, limit))
    ensures bits < TWO_32 && 0 < SetCompact(bits) <= limit
    ensures GetCompact(SetCompact(bits)) == bits
    ensures forall p, q | LastTwo(chain, proofOfStake, p, q) ::
              && spacing == (if |chain| - 1 >= 1_999_856 then 300 else spacing0)
              && var e := chain[p].time - chain[q].time;
                 exists x :: bits == GetCompact(x) && Retargeted(x, SetCompact(chain[p].bits), if e < 0 then spacing0 else e, spacing, limit)
    ensures (forall p, q :: !LastTwo(chain, proofOfStake, p, q)) ==> bits == GetCompact(limit) && spacing == spacing0
  {
    hide GetCompact, SetCompact, Len, NextTarget, Pow, Retargeted;
    FewBlocks(chain, proofOfStake, spacing0, limit);
    forall p, q | LastTwo(chain, proofOfStake, p, q)
      ensures var e := chain[p].time - chain[q].time;
              Retargeted(RequiredTarget(chain, proofOfStake, spacing0, limit), SetCompact(chain[p].bits),
                         if e < 0 then spacing0 else e, SpacingAt(chain, spacing0), limit)
    {
      RequiredIs(chain, proofOfStake, spacing0, limit, p, q);
    }
    hide LastTwo;
    spacing := spacing0;
    var target: int := limit;
    if chain != [] {
      var prev := GetLastBlockIndex(chain, |chain| - 1, proofOfStake);
      if prev > 0 {
        var prevPrev := GetLastBlockIndex(chain, prev - 1, proofOfStake);
        if prevPrev > 0 {
          var actual := chain[prev].time - chain[prevPrev].time;
          if actual < 0 {
            actual := spacing;
          }
          if |chain| - 1 >= SLOWER_SPACING_HEIGHT {
            spacing := 5 * 60;
          }
          target := NextTarget(SetCompact(chain[prev].bits), actual, spacing, limit);
        }
      }
    }
    bits := GetCompact(target);
    LenMonotone(target, limit);
    RoundTripIsFloor(target);
    Canonical(target);
  }

  lemma {:induction false} LenUnique(n: nat, s: nat)
    requires s > 0 && Pow(256, s - 1) <= n < Pow(256, s)
    ensures Len(n) == s
  {
    if s == 1 {
      assert Pow(256, 1) == 256 * Pow(256, 0);
      assert Len(n / 256) == 0;
    } else {
      assert Pow(256, s - 1) == 256 * Pow(256, s - 2) && Pow(256, s) == 256 * Pow(256, s - 1);
      LenUnique(n / 256, s - 1);
    }
  }

  /** Cutting keeps the length. */
  lemma {:induction false} CutLen(n: nat, e: nat)
    requires n > 0 && Drops(n, e)
    ensures Len(Cut(n, e)) == Len(n)
  {
    var s := Len(n);
    LenBounds(n);
    hide Len;
    assert 1 * Pow(256, s - 1) == Pow(256, s - 1);
    LargestBelow(n, e, 1, s - 1);
    DivBounds(n, Pow(256, e));
    assert Cut(n, e) <= n;
    hide Cut;
    LenUnique(Cut(n, e), s);
  }

  /** GetCompact sees only the length and the leading bytes. */
  lemma {:induction false} SameCode(a: nat, b: nat)
    requires Len(a) == Len(b)
    requires Leading(a) == Leading(b) || (Leading(a) >= SIGN && Leading(b) >= SIGN && Leading(a) / 256 == Leading(b) / 256)
    ensures GetCompact(a) == GetCompact(b)
  {
    hide Len, Leading;
  }

  lemma {:induction false} LeadingOfCut(n: nat, e: nat)
    requires 4 <= Len(n) && Len(Cut(n, e)) == Len(n)
    requires e == if Leading(n) >= SIGN then Len(n) - 2 else Len(n) - 3
    ensures if Leading(n) >= SIGN then Leading(Cut(n, e)) == Leading(n) / 256 * 256 else Leading(Cut(n, e)) == Leading(n)
  {
    var size, word := Len(n), Leading(n);
    var p := Pow(256, size - 3);
    assert Pow(256, size - 2) == 256 * p;
    DivDiv(n, p);
    hide Len, Pow;
    if word >= SIGN {
      var q := word / 256;
      assert q == Quotient(n, Pow(256, size - 2));
      Associate(q, 256, p);
      assert Cut(n, e) == Times(q * 256, p);
      DivExact(q * 256, p);
    } else {
      assert word == Quotient(n, p);
      DivExact(word, p);
    }
  }

  lemma WholeCut(n: nat)
    ensures Cut(n, 0) == n
  {
  }

  lemma CutOne(n: nat)
    ensures Cut(n, 1) == n / 256 * 256
  {
    SmallPowers();
    hide Pow;
  }

  lemma {:induction false} LeadingOfThree(n: nat)
    requires Len(n) == 3
    ensures Leading(n) == n
  {
    SmallPowers();
    hide Pow, Len;
    assert Times(n, 1) == n;
  }

  /** An encoding decodes to a number with that encoding. */
  lemma {:induction false} Canonical(n: nat)
    requires Len(n) < 255
    ensures SetCompact(GetCompact(n)) >= 0 && GetCompact(SetCompact(GetCompact(n))) == GetCompact(n)
  {
    hide SetCompact, GetCompact;
    if n == 0 {
      assert SetCompact(GetCompact(0)) == 0 by {
        RoundTripIsFloor(0);
      }
    } else if Len(n) <= 3 {
      var e := ShortNumber(n);
      CutLen(n, e);
      hide Len, Leading, Cut;
      if e == 0 {
        WholeCut(n);
      } else {
        LeadingOfThree(n);
        LeadingOfThree(Cut(n, 1));
        CutOne(n);
        SameCode(Cut(n, 1), n);
      }
    } else {
      var e := LongNumber(n);
      CutLen(n, e);
      LeadingOfCut(n, e);
      hide Len, Leading, Cut;
      SameCode(Cut(n, e), n);
    }
  }

  /** Exactly on target, a canonical nBits within the limit is asked for again. */
  lemma OnTargetUnchanged(bits: nat, spacing: nat, limit: nat)
    requires spacing > 0 && GetCompact(SetCompact(bits)) == bits && 0 < SetCompact(bits) <= limit
    ensures NextTarget(SetCompact(bits), spacing, spacing, limit) == SetCompact(bits)
    ensures GetCompact(NextTarget(SetCompact(bits), spacing, spacing, limit)) == bits
  {
    hide SetCompact, GetCompact;
    var t: nat := SetCompact(bits);
    SameWeight(spacing);
    hide Weight, Divisor;
    MulDiv(t, Divisor(spacing));
  }

  lemma SameWeight(spacing: nat)
    requires spacing > 0
    ensures Weight(spacing, spacing) == Divisor(spacing)
  {
    var k := TARGET_TIMESPAN / spacing;
    assert (k - 1) * spacing + spacing + spacing == (k + 1) * spacing;
  }

  lemma TruncDivMonotone(m: int, n: int, d: nat)
    requires m <= n && d > 0
    ensures TruncDiv(m, d) <= TruncDiv(n, d)
  {
    if 0 <= m {
      DivBounds(m, d);
      DivAtLeast(m / d, n, d);
    } else if n < 0 {
      DivBounds(0 - n, d);
      DivAtLeast((0 - n) / d, 0 - m, d);
    } else {
      NonNegativeQuotient(0 - m, d);
      NonNegativeQuotient(n, d);
    }
  }

  lemma NonNegativeQuotient(n: nat, d: nat)
    requires d > 0
    ensures n / d >= 0
  {
  }

  /** A longer gap asks for no harder target exactly if the shorter one does not scale the target
      down to nothing, which the code answers with the limit, or if the longer one gets the limit
      too. */
  lemma SlowerIsEasier(target: nat, a: int, b: int, spacing: nat, limit: nat)
    requires spacing > 0 && limit > 0 && a <= b
    ensures NextTarget(target, a, spacing, limit) <= NextTarget(target, b, spacing, limit)
       <==> Scaled(target, a, spacing) > 0 || NextTarget(target, b, spacing, limit) == limit
  {
    var x, y, d := Weight(a, spacing), Weight(b, spacing), Divisor(spacing);
    assert x <= y;
    hide Weight, Divisor;
    assert target * y - target * x == target * (y - x);
    MulMonotone(0, y - x, target);
    TruncDivMonotone(target * x, target * y, d);
  }

  /** The smallest target, a second block at once: the limit; on target: unchanged. */
  lemma AtOnceIsEasiest()
    ensures NextTarget(1, 0, 60, 1000) == 1000 && NextTarget(1, 60, 60, 1000) == 1
  {
  }
}
