/** Prefix lengths and masks (master/openvpn.c:91-142, 390-422 and
    web/routes/configs.py:93-125, 206-225), for words of any width where the code allows. */
module Netmask {
  import opened Bits

  /** The mask of `n` leading ones in a word of width `w`. */
  ghost predicate IsMask(x: nat, n: nat, w: nat) {
    n <= w && forall i: nat :: Bit(x, i) <==> w - n <= i < w
  }

  // --- the two ways to build a mask ---

  /** `bits == 0 ? 0 : ~0 << (w - bits)` (master/openvpn.c:405). */
  function ShiftForm(n: nat, w: nat): nat
    requires n <= w
  {
    if n == 0 then 0 else Low(Shl(Ones(w), w - n), w)
  }

  lemma ShiftFormIsMask(n: nat, w: nat)
    requires n <= w
    ensures IsMask(ShiftForm(n, w), n, w)
  {
    forall i: nat
      ensures Bit(ShiftForm(n, w), i) <==> w - n <= i < w
    {
      if n == 0 {
        BitOfZero(i);
      } else {
        BitOfLow(Shl(Ones(w), w - n), w, i);
        BitOfShl(Ones(w), w - n, i);
        if w - n <= i {
          BitOfOnes(w, i - (w - n));
        }
      }
    }
  }

  lemma BitOfPower(k: nat, i: nat)
    ensures Bit(Shl(1, k), i) <==> i == k
  {
    BitOfShl(1, k, i);
    if k < i {
      BitOfZero(i - k - 1);
    }
  }

  lemma NothingSet(w: nat)
    ensures IsMask(0, 0, w)
  {
    forall i: nat
      ensures !Bit(0, i)
    {
      BitOfZero(i);
    }
  }

  lemma SetNext(x: nat, i: nat, w: nat)
    requires IsMask(x, i, w) && i < w
    ensures IsMask(Or(x, Shl(1, w - 1 - i)), i + 1, w)
  {
    var y := Or(x, Shl(1, w - 1 - i));
    forall j: nat
      ensures Bit(y, j) <==> w - (i + 1) <= j < w
    {
      BitOfOr(x, Shl(1, w - 1 - i), j);
      BitOfPower(w - 1 - i, j);
    }
  }

  /** One bit set at a time, from the top (master/openvpn.c:133-136). */
  function LoopForm(n: nat, w: nat): nat
    requires n <= w
  {
    if n == 0 then 0 else Or(LoopForm(n - 1, w), Shl(1, w - n))
  }

  lemma {:induction false} LoopFormIsMask(n: nat, w: nat)
    requires n <= w
    ensures IsMask(LoopForm(n, w), n, w)
  {
    if n == 0 {
      NothingSet(w);
    } else {
      LoopFormIsMask(n - 1, w);
      SetNext(LoopForm(n - 1, w), n - 1, w);
    }
  }

  /** The two ways build the same mask. */
  lemma LoopFormIsShiftForm(n: nat, w: nat)
    requires n <= w
    ensures LoopForm(n, w) == ShiftForm(n, w)
  {
    LoopFormIsMask(n, w);
    ShiftFormIsMask(n, w);
    BitsDetermine(LoopForm(n, w), ShiftForm(n, w));
  }

  /** The loop. */
  method MaskLoop(bits: nat, w: nat) returns (nm: nat)
    requires bits <= w
    ensures nm == LoopForm(bits, w)
    ensures IsMask(nm, bits, w)
  {
    nm := 0;
    NothingSet(w);
    for i := 0 to bits
      invariant nm == LoopForm(i, w)
      invariant IsMask(nm, i, w)
    {
      SetNext(nm, i, w);
      nm := Or(nm, Shl(1, w - 1 - i));
    }
  }

  // --- the two ways to count a prefix ---

  /** Ones from bit `w-1` down to the first zero. */
  function LeadingOnes(x: nat, w: nat): (n: nat)
    ensures n <= w
  {
    if w == 0 || !Bit(x, w - 1) then 0 else 1 + LeadingOnes(x, w - 1)
  }

  lemma {:induction false} LeadingOnesAreOnes(x: nat, w: nat)
    ensures var n := LeadingOnes(x, w);
      && (forall i | w - n <= i < w :: Bit(x, i))
      && (n < w ==> !Bit(x, w - n - 1))
  {
    if w > 0 && Bit(x, w - 1) {
      LeadingOnesAreOnes(x, w - 1);
    }
  }

  /** The loop of the add form (web/routes/configs.py:112-117). */
  method AddBits(x: nat, w: nat) returns (bits: nat)
    ensures bits == LeadingOnes(x, w)
  {
    bits := 0;
    for i := 0 to w
      invariant bits == i
      invariant LeadingOnes(x, w) == i + LeadingOnes(x, w - i)
    {
      BitOfShr(x, w - 1 - i, 0);
      if Shr(x, w - 1 - i) % 2 == 1 {
        bits := bits + 1;
      } else {
        break;
      }
    }
  }

  /** The expression of the edit form (web/routes/configs.py:218-221). */
  function EditBits(x: nat, w: nat): int {
    if x == 0 then 0 else w - BitLength(Xor(x, x - 1))
  }

  /** The lowest bit that is set. */
  function LowestOne(x: nat): (k: nat)
    requires x > 0
    ensures Bit(x, k) && forall i | 0 <= i < k :: !Bit(x, i)
  {
    if x % 2 == 1 then 0
    else
      var k := LowestOne(x / 2);
      assert forall i | 0 < i < k + 1 :: Bit(x, i) == Bit(x / 2, i - 1);
      k + 1
  }

  lemma {:induction false} XorWithPredecessor(x: nat)
    requires x > 0
    ensures BitLength(Xor(x, x - 1)) == LowestOne(x) + 1
  {
    if x % 2 == 1 {
      XorOfOdd(x);
    } else {
      var h := x / 2;
      assert x == 2 * h;
      XorWithPredecessor(h);
      XorOfEven(x, h);
      BitLengthOfOdd(Xor(x, x - 1), Xor(h, h - 1));
    }
  }

  lemma XorOfOdd(x: nat)
    requires x % 2 == 1
    ensures Xor(x, x - 1) == 1 && BitLength(1) == 1
  {
    XorWithItself(x / 2);
    assert (x - 1) / 2 == x / 2;
    assert x > 1 ==> Xor(x, x - 1) == 1 + 2 * Xor(x / 2, x / 2);
    assert BitLength(0) == 0;
  }

  lemma XorOfEven(x: nat, h: nat)
    requires h > 0 && x == 2 * h
    ensures Xor(x, x - 1) == 1 + 2 * Xor(h, h - 1)
  {
    assert x / 2 == h && x % 2 == 0;
    assert (x - 1) / 2 == h - 1 && (x - 1) % 2 == 1;
  }

  lemma BitLengthOfOdd(z: nat, y: nat)
    requires z == 1 + 2 * y
    ensures BitLength(z) == 1 + BitLength(y)
  {
    assert z / 2 == y;
  }

  lemma {:induction false} XorWithItself(x: nat)
    ensures Xor(x, x) == 0
  {
    if x > 0 {
      XorWithItself(x / 2);
    }
  }

  lemma EditBitsByLowestOne(x: nat, w: nat)
    requires x > 0
    ensures EditBits(x, w) == w - 1 - LowestOne(x)
  {
    XorWithPredecessor(x);
  }

  /** The two forms against each other, for every number: they agree only on zero. On a
      non-zero mask of leading ones the edit form is exactly one less; on any other number
      with a bit below `w` it is more; and on a number whose bits all lie at or above `w`,
      as four large octets can give, the add form is 0 and the edit form is negative. */
  lemma AddAgainstEdit(x: nat, w: nat)
    ensures x == 0 <==> EditBits(x, w) == LeadingOnes(x, w)
    ensures x > 0 && LowestOne(x) < w && LeadingOnes(x, w) == w - LowestOne(x) ==>
      EditBits(x, w) == LeadingOnes(x, w) - 1
    ensures x > 0 && LowestOne(x) < w && LeadingOnes(x, w) != w - LowestOne(x) ==>
      EditBits(x, w) > LeadingOnes(x, w)
    ensures x > 0 && LowestOne(x) >= w ==> LeadingOnes(x, w) == 0 && EditBits(x, w) < 0
  {
    var n := LeadingOnes(x, w);
    LeadingOnesAreOnes(x, w);
    if x == 0 {
      if w > 0 {
        BitOfZero(w - 1);
      }
    } else {
      EditBitsByLowestOne(x, w);
      if n > 0 {
        assert Bit(x, w - n);
      }
    }
  }

  /** Below the width, ones that lead and end at the lowest one make up the whole mask. */
  lemma MasksAreContiguous(x: nat, w: nat)
    requires x > 0 && x == Low(x, w)
    ensures LowestOne(x) < w
    ensures LeadingOnes(x, w) == w - LowestOne(x) <==> IsMask(x, LeadingOnes(x, w), w)
  {
    var k, n := LowestOne(x), LeadingOnes(x, w);
    LeadingOnesAreOnes(x, w);
    forall i: nat
      ensures Bit(x, i) ==> i < w
    {
      BitOfLow(x, w, i);
    }
    if n == w - k {
      forall i: nat
        ensures Bit(x, i) <==> w - n <= i < w
      {
      }
    } else if n > 0 {
      assert Bit(x, w - n) && Bit(x, k);
    }
  }

  lemma {:induction false} MaskHasItsPrefix(x: nat, n: nat, w: nat)
    requires forall i: nat | i < w :: Bit(x, i) <==> w - n <= i
    requires n <= w
    ensures LeadingOnes(x, w) == n
    decreases w
  {
    if n > 0 {
      assert Bit(x, w - 1);
      MaskHasItsPrefix(x, n - 1, w - 1);
    } else if w > 0 {
      assert !Bit(x, w - 1);
    }
  }

  /** For every mask the add form gives its length and the edit form, unless it is zero,
      one less. */
  lemma PrefixOfMask(n: nat, w: nat)
    requires n <= w
    ensures LeadingOnes(ShiftForm(n, w), w) == n
    ensures EditBits(ShiftForm(n, w), w) == if n == 0 then 0 else n - 1
  {
    var x := ShiftForm(n, w);
    ShiftFormIsMask(n, w);
    MaskHasItsPrefix(x, n, w);
    if n > 0 {
      assert Bit(x, w - n);
      if x == 0 {
        BitOfZero(w - n);
      }
      EditBitsByLowestOne(x, w);
      var k := LowestOne(x);
      assert Bit(x, k);
    }
  }

  // --- the address pool ---

  /** The addresses of `calc_ip_pool`, once its texts are read. */
  function PoolAddress(ip: nat, mask: nat, v: nat): nat {
    Or(And(ip, mask), v)
  }

  function NetworkOf(ip: nat, mask: nat): nat {
    And(ip, mask)
  }

  lemma BitOfPool(ip: nat, mask: nat, v: nat, i: nat)
    ensures Bit(NetworkOf(ip, mask), i) <==> Bit(ip, i) && Bit(mask, i)
    ensures Bit(NetworkOf(PoolAddress(ip, mask, v), mask), i) <==>
      Bit(mask, i) && (Bit(ip, i) || Bit(v, i))
  {
    BitOfAnd(ip, mask, i);
    BitOfOr(And(ip, mask), v, i);
    BitOfAnd(PoolAddress(ip, mask, v), mask, i);
  }

  /** Whatever the mask, an end of the pool stays in the subnet exactly when each of its own
      bits that the mask covers is already set in the server address. */
  lemma PoolAddressStaysIn(ip: nat, mask: nat, v: nat)
    ensures NetworkOf(PoolAddress(ip, mask, v), mask) == NetworkOf(ip, mask) <==>
      forall i: nat :: Bit(v, i) && Bit(mask, i) ==> Bit(ip, i)
  {
    var network, reached := NetworkOf(ip, mask), NetworkOf(PoolAddress(ip, mask, v), mask);
    if forall i: nat :: Bit(v, i) && Bit(mask, i) ==> Bit(ip, i) {
      forall i: nat
        ensures Bit(reached, i) <==> Bit(network, i)
      {
        BitOfPool(ip, mask, v, i);
      }
      BitsDetermine(reached, network);
    } else {
      var i: nat :| Bit(v, i) && Bit(mask, i) && !Bit(ip, i);
      BitOfPool(ip, mask, v, i);
    }
  }

  /** For a prefix of length `n`, only the bits from `w - n` upwards matter. */
  lemma PoolUnderPrefix(ip: nat, n: nat, w: nat, v: nat)
    requires n <= w
    ensures NetworkOf(PoolAddress(ip, ShiftForm(n, w), v), ShiftForm(n, w)) == NetworkOf(ip, ShiftForm(n, w)) <==>
      forall i: nat | w - n <= i < w :: Bit(v, i) ==> Bit(ip, i)
  {
    var mask := ShiftForm(n, w);
    ShiftFormIsMask(n, w);
    PoolAddressStaysIn(ip, mask, v);
    assert forall i: nat :: Bit(mask, i) <==> w - n <= i < w;
  }

  /** A value of eight bits, over a network with at least eight host bits. */
  lemma PoolIsSum(ip: nat, n: nat, w: nat, v: nat)
    requires n + 8 <= w && Low(v, 8) == v
    ensures PoolAddress(ip, ShiftForm(n, w), v) == NetworkOf(ip, ShiftForm(n, w)) + v
    ensures NetworkOf(PoolAddress(ip, ShiftForm(n, w), v), ShiftForm(n, w)) == NetworkOf(ip, ShiftForm(n, w))
  {
    var mask := ShiftForm(n, w);
    ShiftFormIsMask(n, w);
    forall i: nat
      ensures Bit(v, i) ==> i < 8
      ensures Bit(And(ip, mask), i) ==> w - n <= i < w
    {
      BitOfLow(v, 8, i);
      BitOfAnd(ip, mask, i);
    }
    OrOfDisjoint(And(ip, mask), v);
    PoolUnderPrefix(ip, n, w, v);
  }

  /** The last address of the subnet: all host bits set. */
  function BroadcastOf(ip: nat, n: nat, w: nat): nat
    requires n <= w
  {
    Or(And(ip, ShiftForm(n, w)), Ones(w - n))
  }

  lemma BroadcastIsSum(ip: nat, n: nat, w: nat)
    requires n <= w
    ensures BroadcastOf(ip, n, w) == NetworkOf(ip, ShiftForm(n, w)) + Ones(w - n)
  {
    var mask := ShiftForm(n, w);
    ShiftFormIsMask(n, w);
    forall i: nat
      ensures !(Bit(And(ip, mask), i) && Bit(Ones(w - n), i))
    {
      BitOfAnd(ip, mask, i);
      BitOfOnes(w - n, i);
    }
    OrOfDisjoint(And(ip, mask), Ones(w - n));
  }

  /** With a prefix of at most 24 bits, the pool runs from network + 100 to network + 200,
      inside the subnet and clear of its first and last address. */
  lemma PoolOfShortPrefix(ip: nat, n: nat)
    requires n <= 24
    ensures var mask := ShiftForm(n, 32);
      var network, first, last := NetworkOf(ip, mask), PoolAddress(ip, mask, 100), PoolAddress(ip, mask, 200);
      && first == network + 100 && last == network + 200
      && NetworkOf(first, mask) == network && NetworkOf(last, mask) == network
      && network < first < last < BroadcastOf(ip, n, 32)
  {
    EightBits(100);
    EightBits(200);
    PoolIsSum(ip, n, 32, 100);
    PoolIsSum(ip, n, 32, 200);
    BroadcastIsSum(ip, n, 32);
    OnesGrow(8, 32 - n);
    OnesOfEight();
  }

  lemma OnesOfEight()
    ensures Ones(8) == 255
  {
    assert Ones(4) == 15;
    assert Ones(6) == 63;
  }

  lemma EightBits(v: nat)
    requires v < 256
    ensures Low(v, 8) == v
  {
    OnesOfEight();
    LowBelow(v, 8);
  }

  lemma {:induction false} LowBelow(v: nat, w: nat)
    requires v <= Ones(w)
    ensures Low(v, w) == v
  {
    if w > 0 {
      LowBelow(v / 2, w - 1);
    }
  }

  /** Longer prefixes can push an end out. With seven host bits, a /25, bit 7 belongs to the
      network: the first address stays in, and the last one only for servers in the upper
      half. */
  lemma PoolWithSevenHostBits(ip: nat, n: nat, w: nat)
    requires n + 7 == w && n > 0
    ensures var mask := ShiftForm(n, w);
      && NetworkOf(PoolAddress(ip, mask, 100), mask) == NetworkOf(ip, mask)
      && (NetworkOf(PoolAddress(ip, mask, 200), mask) == NetworkOf(ip, mask) <==> Bit(ip, 7))
  {
    PoolUnderPrefix(ip, n, w, 100);
    PoolUnderPrefix(ip, n, w, 200);
    BitsOfTheEnds();
  }

  lemma BitsOfTheEnds()
    ensures forall i: nat :: Bit(100, i) ==> i < 7
    ensures forall i: nat :: Bit(200, i) ==> i < 8
    ensures Bit(200, 7)
  {
    OnesOfEight();
    assert Ones(7) == 127;
    LowBelow(100, 7);
    LowBelow(200, 8);
    forall i: nat
      ensures Bit(100, i) ==> i < 7
      ensures Bit(200, i) ==> i < 8
    {
      BitOfLow(100, 7, i);
      BitOfLow(200, 8, i);
    }
    assert Bit(1, 0);
    assert Bit(12, 3);
    assert Bit(50, 5);
  }
}
