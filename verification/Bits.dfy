/**
Single bytes as sets of bits: the operations of math/bits and the operators the generated code uses,
by the bits they set, clear and count.
 */
module Bits {
  type byte = bv8

  function Mask(k: nat): byte
    requires k < 8
  {
    match k
    case 0 => 0x01
    case 1 => 0x02
    case 2 => 0x04
    case 3 => 0x08
    case 4 => 0x10
    case 5 => 0x20
    case 6 => 0x40
    case 7 => 0x80
  }

  predicate Bit(m: byte, k: nat)
    requires k < 8
  {
    m & Mask(k) != 0
  }

  lemma ShiftIsMask(k: nat)
    requires k < 8
    ensures (1 as byte) << k == Mask(k) && (0 as byte) << k == 0
  {
  }

  lemma OrBit(m: byte, k: nat, l: nat)
    requires k < 8 && l < 8
    ensures Bit(m | Mask(k), l) <==> Bit(m, l) || l == k
  {
    var other := Mask(l);
    assert (m | Mask(k)) & other == (m & other) | (Mask(k) & other);
    MasksMeet(k, l);
    if l == k {
      OrNonZero(m & other, other);
    }
  }

  lemma OrNonZero(x: byte, y: byte)
    requires y != 0
    ensures x | y != 0
  {
  }

  lemma MasksMeet(k: nat, l: nat)
    requires k < 8 && l < 8
    ensures Mask(k) & Mask(l) == (if k == l then Mask(k) else 0) && Mask(k) != 0
  {
  }

  // What is asked for and not there.
  lemma MissingBit(have: byte, mask: byte, k: nat)
    requires k < 8
    ensures Bit((have & mask) ^ mask, k) <==> Bit(mask, k) && !Bit(have, k)
  {
    MissingBits(have, mask, Mask(k));
  }

  lemma MissingBits(have: byte, mask: byte, bit: byte)
    requires bit in {0x01, 0x02, 0x04, 0x08, 0x10, 0x20, 0x40, 0x80}
    ensures ((have & mask) ^ mask) & bit != 0 <==> mask & bit != 0 && have & bit == 0
  {
  }

  // Resetting a bit leaves the others alone.
  lemma ClearBit(m: byte, k: nat, l: nat)
    requires k < 8 && l < 8
    ensures Bit(m & !Mask(k), l) <==> Bit(m, l) && l != k
  {
    ClearBits(m, Mask(k), Mask(l));
    MasksMeet(k, l);
  }

  lemma ClearBits(m: byte, bit: byte, other: byte)
    ensures bit & other == 0 ==> (m & !bit) & other == m & other
    ensures bit == other ==> (m & !bit) & other == 0
  {
  }

  // The bits that are set.
  function Members(m: byte): set<nat> {
    set k: nat | k < 8 && Bit(m, k)
  }

  lemma MembersOf(m: byte, n: byte)
    ensures forall k: nat :: k < 8 ==> Members(m & !Mask(k)) == Members(m) - {k}
    ensures forall k: nat :: k < 8 ==> Members(m | Mask(k)) == Members(m) + {k}
    ensures Members((m & n) ^ n) == Members(n) - Members(m)
    ensures Members(0) == {} && (m == 0 <==> Members(m) == {})
  {
    forall k: nat, l: nat | k < 8 && l < 8
      ensures Bit(m & !Mask(k), l) <==> Bit(m, l) && l != k
      ensures Bit(m | Mask(k), l) <==> Bit(m, l) || l == k
    {
      ClearBit(m, k, l);
      OrBit(m, k, l);
    }
    forall l: nat | l < 8
      ensures Bit((m & n) ^ n, l) <==> Bit(n, l) && !Bit(m, l)
    {
      MissingBit(m, n, l);
    }
    NoBits(m);
    hide Bit, Mask;
  }

  lemma NoBits(m: byte)
    ensures forall k: nat :: k < 8 ==> !Bit(0, k)
    ensures (forall k: nat :: k < 8 ==> !Bit(m, k)) ==> m == 0
  {
    AnyBit(m);
    assert Bit(m, 0) || Bit(m, 1) || Bit(m, 2) || Bit(m, 3) || Bit(m, 4) || Bit(m, 5) || Bit(m, 6) || Bit(m, 7) || m == 0;
  }

  lemma AnyBit(m: byte)
    ensures m == 0 || m & 0x01 != 0 || m & 0x02 != 0 || m & 0x04 != 0 || m & 0x08 != 0
            || m & 0x10 != 0 || m & 0x20 != 0 || m & 0x40 != 0 || m & 0x80 != 0
  {
  }

  // The elements of a set below n, from k on, in their order.
  function Ascending(s: set<nat>, k: nat, n: nat): seq<nat>
    requires k <= n
    decreases n - k
  {
    if k == n then [] else (if k in s then [k] else []) + Ascending(s, k + 1, n)
  }

  lemma {:induction false} AscendingSame(s: set<nat>, t: set<nat>, k: nat, n: nat)
    requires k <= n && forall i :: k <= i < n ==> (i in s <==> i in t)
    ensures Ascending(s, k, n) == Ascending(t, k, n)
    decreases n - k
  {
    if k < n {
      AscendingSame(s, t, k + 1, n);
    }
  }

  // Without its least element, the list has lost its first.
  lemma {:induction false} AscendingRest(s: set<nat>, k: nat, n: nat)
    requires k <= n && Ascending(s, k, n) != []
    ensures var least := Ascending(s, k, n)[0];
            k <= least < n && least in s && Ascending(s - {least}, k, n) == Ascending(s, k, n)[1..]
    decreases n - k
  {
    if k in s {
      AscendingSame(s - {k}, s, k + 1, n);
    } else {
      AscendingRest(s, k + 1, n);
    }
  }

  // bits.OnesCount8.
  function OnesCount(m: byte): nat {
    |Ascending(Members(m), 0, 8)|
  }

  // bits.TrailingZeros8.
  function TrailingZeros(m: byte): nat {
    var bits := Ascending(Members(m), 0, 8);
    if bits == [] then 8 else bits[0]
  }

  // m |= 1 << k, or m |= 0 << k.
  function OrBitAt(m: byte, v: bool, k: nat): byte
    requires k < 8
  {
    m | ((if v then 1 else 0) << k)
  }

  // m &^= 1 << k.
  function ResetBitAt(m: byte, k: nat): byte
    requires k < 8
  {
    m & !(1 << k)
  }

  // (have & mask) ^ mask.
  function Lacks(have: byte, mask: byte): byte {
    (have & mask) ^ mask
  }

  lemma OrBitAtMembers(m: byte, k: nat)
    requires k < 8
    ensures Members(OrBitAt(m, true, k)) == Members(m) + {k}
  {
    ShiftIsMask(k);
    MembersOf(m, 0);
    hide Members;
  }

  lemma OrNoBit(m: byte, k: nat)
    requires k < 8
    ensures OrBitAt(m, false, k) == m
  {
    ZeroShift(if false then 1 else 0, k);
    OrNothing(m);
  }

  lemma ZeroShift(zero: byte, k: nat)
    requires zero == 0 && k < 8
    ensures zero << k == 0
  {
  }

  lemma ResetBitAtMembers(m: byte, k: nat)
    requires k < 8
    ensures Members(ResetBitAt(m, k)) == Members(m) - {k}
  {
    ShiftIsMask(k);
    MembersOf(m, 0);
    hide Members;
  }

  lemma LacksMembers(have: byte, mask: byte)
    ensures Members(Lacks(have, mask)) == Members(mask) - Members(have)
    ensures Lacks(have, mask) == 0 <==> Members(mask) <= Members(have)
  {
    MembersOf(have, mask);
    assert Members(Lacks(have, mask)) == Members(mask) - Members(have);
    MembersOf(Lacks(have, mask), 0);
    hide Members, Lacks;
    var missing := Members(mask) - Members(have);
    assert missing == {} <==> Members(mask) <= Members(have) by {
      assert forall k :: k in Members(mask) && k !in Members(have) ==> k in missing;
    }
  }

  lemma NothingSet()
    ensures Members(0) == {}
  {
    MembersOf(0, 0);
  }

  lemma OrNothing(m: byte)
    ensures m | 0 == m
  {
  }

  lemma CountAndFirst(m: byte)
    ensures var bits := Ascending(Members(m), 0, 8);
            OnesCount(m) == |bits| && (bits != [] ==> TrailingZeros(m) == bits[0])
  {
  }
}
