/** Addition with flags and the condition codes of src/cpu.cc, against AddWithCarry (appendix J1 of the
    Arm ARM, DDI 0487) and the condition codes of section C1.2.4. */
module Flags {
  import opened Words
  import opened Util

  datatype NZCV = NZCV(n: bool, z: bool, c: bool, v: bool)

  // ----- as the emulator computes them -----

  /** Addition without flags; a carry-in means subtraction of `y`. */
  function AddImm(x: u64, y: u64, carry: bool): u64
  {
    if carry then U64(U64(x + Not64(y)) + 1) else U64(x + y)
  }

  function AddImmS32(x: u64, y: u64, carry: bool): (u64, NZCV)
  {
    var x32, y32, c := x % TWO32, if carry then TWO32 - 1 - y % TWO32 else y % TWO32, if carry then 1 else 0;
    var unsignedSum := x32 + y32 + c;
    var signedSum := SignedBy(x32, TWO31) + SignedBy(y32, TWO31) + c;
    var result := unsignedSum % TWO32;
    (result, NZCV(result >= TWO31, result == 0, unsignedSum != result, signedSum != SignedBy(result, TWO31)))
  }

  function AddImmS64(x: u64, y: u64, carry: bool): (u64, NZCV)
  {
    var y' := if carry then Not64(y) else y;
    var result := U64(x + y' + (if carry then 1 else 0));
    var topX, topY, topR := x >= TWO63, y' >= TWO63, result >= TWO63;
    (result, NZCV(topY, result == 0, (topX || topY) && !topR, topX == topY && topR != topX))
  }

  function AddImmS(x: u64, y: u64, carry: bool, is64: bool): (u64, NZCV)
  {
    if is64 then AddImmS64(x, y, carry) else AddImmS32(x, y, carry)
  }

  predicate CheckBFlag(cond: nat, f: NZCV)
  {
    match cond
    case 0 => f.z
    case 1 => !f.z
    case 2 => f.c
    case 3 => !f.c
    case 4 => f.n
    case 5 => !f.n
    case 6 => f.v
    case 7 => !f.v
    case 8 => f.c && !f.z
    case 9 => !f.c || f.z
    case 10 => f.n == f.v
    case 11 => f.n != f.v
    case 12 => !f.z && f.n == f.v
    case 13 => f.z || f.n != f.v
    case 14 => true
    case 15 => true
    case _ => false
  }

  // ----- the reference -----

  /** AddWithCarry on `n`-bit operands: the sum in `n` bits, with the flags read off the unbounded sums. */
  function AddWithCarry(n: nat, x: nat, y: nat, carry: bool): (nat, NZCV)
    requires n > 0
  {
    var c := if carry then 1 else 0;
    var result := (x + y + c) % Pow2(n);
    (result, NZCV(result >= Pow2(n - 1), result == 0, x + y + c != result,
                  Signed(x, n) + Signed(y, n) + c != Signed(result, n)))
  }

  /** The relation between two words that a condition code names after a comparison; the sign bit of a word is
      worth `half`. */
  predicate RelationBy(cond: nat, x: nat, y: nat, half: nat)
    requires cond < 14 && half > 0
  {
    var sx, sy := SignedBy(x, half), SignedBy(y, half);
    match cond
    case 0 => x == y
    case 1 => x != y
    case 2 => x >= y
    case 3 => x < y
    case 4 => (x - y) % (2 * half) >= half
    case 5 => (x - y) % (2 * half) < half
    case 6 => !(0 - half <= sx - sy < half)
    case 7 => 0 - half <= sx - sy < half
    case 8 => x > y
    case 9 => x <= y
    case 10 => sx >= sy
    case 11 => sx < sy
    case 12 => sx > sy
    case _ => sx <= sy
  }

  predicate Relation32(cond: nat, x: u32, y: u32)
    requires cond < 14
  {
    RelationBy(cond, x, y, TWO31)
  }

  predicate Relation64(cond: nat, x: u64, y: u64)
    requires cond < 14
  {
    RelationBy(cond, x, y, TWO63)
  }

  // ----- conformance -----

  /** Flag-free addition and subtraction are those of 64-bit words. */
  lemma AddImmIs(x: u64, y: u64, carry: bool)
    ensures AddImm(x, y, carry) == U64(if carry then x - y else x + y)
  {
  }

  /** The 32-bit form is AddWithCarry on the low halves, the second operand complemented for a subtraction. */
  lemma AddImmS32IsAddWithCarry(x: u64, y: u64, carry: bool)
    ensures AddImmS32(x, y, carry)
            == AddWithCarry(32, x % TWO32, if carry then TWO32 - 1 - y % TWO32 else y % TWO32, carry)
  {
    Pow2Words();
  }

  /** After a 32-bit comparison each condition code holds exactly when the relation it names holds between
      the integers compared, and flipping its lowest bit negates it. */
  lemma Compare32(cond: nat, x: u32, y: u32)
    requires cond < 14
    ensures CheckBFlag(cond, AddImmS32(x, y, true).1) == Relation32(cond, x, y)
    ensures CheckBFlag(Xor(cond, 1), AddImmS32(x, y, true).1) == !Relation32(cond, x, y)
  {
    FlipLowestBit(cond);
    CompareFlags(x, y);
  }

  lemma FlipLowestBit(cond: nat)
    ensures Xor(cond, 1) == if cond % 2 == 0 then cond + 1 else cond - 1
  {
    assert Xor(cond / 2, 0) == cond / 2;
  }

  /** The four flags of a 32-bit subtraction in terms of the integers. */
  lemma CompareFlags(x: u32, y: u32)
    ensures
      var f := AddImmS32(x, y, true).1;
      var d := SignedBy(x, TWO31) - SignedBy(y, TWO31);
      && f.z == (x == y)
      && f.c == (x >= y)
      && f.n == ((x - y) % TWO32 >= TWO31)
      && f.v == !(-TWO31 <= d < TWO31)
      && (f.n == f.v) == (d >= 0)
  {
    Wrapped32(x + TWO32 - y);
    Subtract32(x, y, if x >= y then x - y else x - y + TWO32);
  }

  /** A 32-bit subtraction with its result written without a modulus. */
  lemma Subtract32(x: u32, y: u32, r: u32)
    requires r == if x >= y then x - y else x - y + TWO32
    ensures
      var f := AddImmS32(x, y, true).1;
      && (x - y) % TWO32 == r && f.n == (r >= TWO31) && f.z == (r == 0) && f.c == (x >= y)
      && f.v == (SignedBy(x, TWO31) - SignedBy(y, TWO31) != SignedBy(r, TWO31))
  {
    Wrapped32(x + TWO32 - y);
  }

  lemma Wrapped32(sum: nat)
    requires sum < 2 * TWO32
    ensures sum % TWO32 == if sum < TWO32 then sum else sum - TWO32
  {
  }

  /** ADDS: the carry is that of the unbounded sum, and overflow is that of the signed sum. */
  lemma Add32Flags(x: u32, y: u32)
    ensures
      var (r, f) := AddImmS32(x, y, false);
      var s := SignedBy(x, TWO31) + SignedBy(y, TWO31);
      && r == (x + y) % TWO32 && f.z == ((x + y) % TWO32 == 0)
      && f.c == (x + y >= TWO32)
      && f.v == !(-TWO31 <= s < TWO31)
      && (f.n == f.v) == (s >= 0)
  {
    Wrapped32(x + y);
    Sum32(x, y, if x + y < TWO32 then x + y else x + y - TWO32);
  }

  /** A 32-bit addition with its result written without a modulus. */
  lemma Sum32(x: u32, y: u32, r: u32)
    requires r == if x + y < TWO32 then x + y else x + y - TWO32
    ensures
      var f := AddImmS32(x, y, false).1;
      && AddImmS32(x, y, false).0 == (x + y) % TWO32 == r && f.n == (r >= TWO31) && f.z == (r == 0)
      && f.c == (x + y >= TWO32) && f.v == (SignedBy(x, TWO31) + SignedBy(y, TWO31) != SignedBy(r, TWO31))
  {
    Wrapped32(x + y);
  }

  /** The second operand of a 64-bit addition or subtraction as the adder sees it. */
  function Operand64(y: u64, carry: bool): u64 { if carry then Not64(y) else y }

  /** The unbounded sum of the operands and the carry. */
  function Sum64(x: u64, y: u64, carry: bool): nat { x + Operand64(y, carry) + if carry then 1 else 0 }

  /** When N, copied from the second operand, is the top bit of the result. */
  predicate NegativeRight(x: u64, y: u64, carry: bool)
  {
    var sum := Sum64(x, y, carry);
    if Operand64(y, carry) < TWO63 then sum < TWO63 || sum >= TWO64 else sum < TWO64 || sum >= 3 * TWO63
  }

  /** The 64-bit form: result, Z and V are AddWithCarry's for all operands.  C is, exactly when the unbounded
      sum stays below 3 * 2^63; N is, exactly when a small second operand keeps the sum on its side of 2^63 or
      carries it past 2^64, and a large one keeps it below 2^64 or carries it past 3 * 2^63. */
  lemma AddImmS64Flags(x: u64, y: u64, carry: bool)
    ensures
      var (r, f) := AddImmS64(x, y, carry);
      var (r', f') := AddWithCarry(64, x, Operand64(y, carry), carry);
      && r == r' && f.z == f'.z && f.v == f'.v
      && (f.c == f'.c <==> Sum64(x, y, carry) < 3 * TWO63)
      && (f.n == f'.n <==> NegativeRight(x, y, carry))
  {
    var y', sum := Operand64(y, carry), Sum64(x, y, carry);
    var r := if sum < TWO64 then sum else sum - TWO64;
    Wrapped(sum);
    Reference64(x, y', carry, r);
    Emulated64(x, y, carry, r);
    Carry64(x, y', sum, r);
    Overflow64(x, y', sum, r);
  }

  /** The emulator's flags, with the result written without a modulus. */
  lemma Emulated64(x: u64, y: u64, carry: bool, r: u64)
    requires r == Sum64(x, y, carry) % TWO64
    ensures
      var topX, topY, topR := x >= TWO63, Operand64(y, carry) >= TWO63, r >= TWO63;
      AddImmS64(x, y, carry) == (r, NZCV(topY, r == 0, (topX || topY) && !topR, topX == topY && topR != topX))
  {
  }

  /** The reference on 64 bits, with the powers of two written out. */
  lemma Reference64(x: u64, y: u64, carry: bool, r: u64)
    requires r == (x + y + if carry then 1 else 0) % TWO64
    ensures
      var c := if carry then 1 else 0;
      AddWithCarry(64, x, y, carry)
      == (r, NZCV(r >= TWO63, r == 0, x + y + c != r,
                  SignedBy(x, TWO63) + SignedBy(y, TWO63) + c != SignedBy(r, TWO63)))
  {
    Pow2Words();
  }

  lemma Wrapped(sum: nat)
    requires sum < 2 * TWO64
    ensures sum % TWO64 == if sum < TWO64 then sum else sum - TWO64
  {
  }

  /** Carry read off the three top bits. */
  lemma Carry64(x: u64, y: u64, sum: nat, r: nat)
    requires x + y <= sum <= x + y + 1 && r == if sum < TWO64 then sum else sum - TWO64
    ensures ((x >= TWO63 || y >= TWO63) && r < TWO63) == (sum != r) <==> sum < 3 * TWO63
  {
  }

  /** Signed overflow read off the three top bits. */
  lemma Overflow64(x: u64, y: u64, sum: nat, r: nat)
    requires x + y <= sum <= x + y + 1 && r == if sum < TWO64 then sum else sum - TWO64
    ensures SignedBy(x, TWO63) + SignedBy(y, TWO63) + (sum - x - y) != SignedBy(r, TWO63)
            <==> (x >= TWO63) == (y >= TWO63) && (r >= TWO63) != (x >= TWO63)
  {
  }

  /** When a 64-bit comparison of x and y is decided correctly, by condition code and operands: equality and
      overflow always; unsigned order while x is less than 2^63 above y; signed order when x lies in the half
      of the signed range just below a y that is not negative, or just above one that is, and strict signed
      order also when they are equal. */
  predicate Decided64(cond: nat, x: u64, y: u64)
    requires cond < 14
  {
    var sx, sy := SignedBy(x, TWO63), SignedBy(y, TWO63);
    var signedOrder := if sy >= 0 then -TWO63 <= sx - sy < 0 else 0 <= sx - sy < TWO63;
    match cond
    case 2 => x - y < TWO63
    case 3 => x - y < TWO63
    case 4 => if y < TWO63 then x < y || x - y >= TWO63 else x >= y || x - y < -TWO63
    case 5 => if y < TWO63 then x < y || x - y >= TWO63 else x >= y || x - y < -TWO63
    case 8 => x - y < TWO63
    case 9 => x - y < TWO63
    case 10 => signedOrder
    case 11 => signedOrder
    case 12 => x == y || signedOrder
    case 13 => x == y || signedOrder
    case _ => true
  }

  /** The flags of a 64-bit subtraction over the integers: Z and V are right, N is the top bit of y
      complemented, and C misses the sums from 3 * 2^63 on. */
  lemma SubtractFlags64(x: u64, y: u64)
    ensures
      var f := AddImmS64(x, y, true).1;
      var d := SignedBy(x, TWO63) - SignedBy(y, TWO63);
      && f.z == (x == y)
      && f.n == (y < TWO63)
      && f.c == (0 <= x - y < TWO63)
      && f.v == !(-TWO63 <= d < TWO63)
  {
  }

  /** After a 64-bit comparison each condition code says whether the relation it names holds, exactly for the
      operands above. */
  lemma Compare64(cond: nat, x: u64, y: u64)
    requires cond < 14
    ensures CheckBFlag(cond, AddImmS64(x, y, true).1) == Relation64(cond, x, y) <==> Decided64(cond, x, y)
  {
    SubtractFlags64(x, y);
  }

  /** Comparisons the 64-bit flags decide wrongly: 2^63 is not reported as at least 0 unsigned, and 5 is
      not reported as at least 0 signed. */
  lemma Compare64Witness()
    ensures !CheckBFlag(2, AddImmS64(TWO63, 0, true).1)
    ensures !CheckBFlag(10, AddImmS64(5, 0, true).1)
  {
    assert AddImmS64(TWO63, 0, true).0 == TWO63;
  }
}
