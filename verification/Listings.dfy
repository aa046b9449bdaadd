/** The instruction words of the two test functions and what they decode to.  The words are the A64
    encodings of the assembly text, by the layouts given above each handler in src/cpu.cc. */
module Listings {
  import opened Words
  import opened Util
  import opened Memory
  import opened Immediates
  import opened Isa

  // ----- immediates -----

  lemma ScaledOffset(imm: Imm12, size: Size)
    ensures SingleOffset(imm, size, Offset) == imm * Bytes(size)
  {
    var k := match size case Byte => 0 case Hex => 1 case Word => 2 case DWord => 3;
    ShlIs(imm, k);
    assert Pow2(k) == Bytes(size);
    MulMonoLeft(imm, Bytes(size), 8);
  }

  lemma WidePairOffset(imm: Imm7)
    ensures PairOffset(imm, true) == U64(8 * SignedBy(imm, 64))
  {
    SignedImm7(imm);
    TimesEight(SignExtend(imm, 7), SignedBy(imm, 64));
  }

  lemma NarrowPairOffset(imm: Imm7)
    ensures PairOffset(imm, false) == U64(4 * SignedBy(imm, 64))
  {
    SignedImm7(imm);
    TimesFour(SignExtend(imm, 7), SignedBy(imm, 64));
  }

  lemma TimesFour(v: u64, d: int)
    requires v == U64(d)
    ensures Lsl(v, 2) == U64(4 * d)
  {
    ShlIs(v, 2);
    assert Pow2(2) == 4;
  }

  lemma SignedImm7(imm: Imm7)
    ensures SignExtend(imm, 7) == U64(SignedBy(imm, 64))
  {
    SignExtendMeans(imm, 7);
    Pow2Table();
  }

  lemma TimesEight(v: u64, d: int)
    requires v == U64(d)
    ensures Lsl(v, 3) == U64(8 * d)
  {
    ShlIs(v, 3);
    assert Pow2(3) == 8;
  }

  lemma Offset19Is(imm: Imm19)
    ensures Offset19(imm) == U64(4 * SignedBy(imm, 0x4_0000))
  {
    Pow2Table();
    BranchOffsetIs(imm, 19);
  }

  lemma Offset26Is(imm: Imm26)
    ensures Offset26(imm) == U64(4 * SignedBy(imm, 0x200_0000))
  {
    Pow2Table();
    BranchOffsetIs(imm, 26);
  }

  // ----- words -----

  /** A quantifier guarded by this predicate stays folded until the predicate is mentioned. */
  ghost predicate Open(z: int) { true }

  /** `w` decodes to `i`; the guard keeps the decoder out of proofs that only carry this fact along. */
  ghost predicate Reads(w: u32, i: Instr)
  {
    forall z {:trigger Open(z)} :: Open(z) ==> Decode(w) == i
  }

  /** Executing `i` takes `s` to `t`; the guard keeps the execution function folded. */
  ghost predicate Does(s: State, i: Instr, t: State)
    requires s.Valid()
  {
    forall z {:trigger Open(z)} :: Open(z) ==> Exec(s, i) == Ok(t)
  }

  /** Executing `i` in `s` stops the emulator; folded like Does. */
  ghost predicate Stops(s: State, i: Instr, why: Why)
    requires s.Valid()
  {
    forall z {:trigger Open(z)} :: Open(z) ==> Exec(s, i) == Stop(why)
  }

  lemma StpDecodes(w: u32)
    requires w == 0xa9bd7bfd
    ensures Reads(w, Pair(false, true, PreIndex, 122, 29, 30, 31))
  {
  }

  lemma MovFpDecodes(w: u32)
    requires w == 0x910003fd
    ensures Reads(w, AddSubImm(true, false, false, 0, 31, 29))
  {
  }

  lemma StrX19Decodes(w: u32)
    requires w == 0xf9000bf3
    ensures Reads(w, Single(false, DWord, Offset, 2, 19, 31))
  {
  }

  lemma StrW0At44Decodes(w: u32)
    requires w == 0xb9002fe0
    ensures Reads(w, Single(false, Word, Offset, 11, 0, 31))
  {
  }

  lemma LdrW0At44Decodes(w: u32)
    requires w == 0xb9402fe0
    ensures Reads(w, Single(true, Word, Offset, 11, 0, 31))
  {
  }

  lemma CmpW0With0Decodes(w: u32)
    requires w == 0x7100001f
    ensures Reads(w, AddSubImm(false, true, true, 0, 0, 31))
  {
  }

  lemma CmpW0With1Decodes(w: u32)
    requires w == 0x7100041f
    ensures Reads(w, AddSubImm(false, true, true, 1, 0, 31))
  {
  }

  lemma BneDecodes(w: u32)
    requires w == 0x54000061
    ensures Reads(w, BCond(1, 3))
  {
  }

  lemma MovW0To0Decodes(w: u32)
    requires w == 0x52800000
    ensures Reads(w, MoveWide(false, 2, 0, 0, 0))
  {
  }

  lemma MovW0To1Decodes(w: u32)
    requires w == 0x52800020
    ensures Reads(w, MoveWide(false, 2, 0, 1, 0))
  {
  }

  lemma BFrom8Decodes(w: u32)
    requires w == 0x1400000e
    ensures Reads(w, B(false, 14))
  {
  }

  lemma BFrom13Decodes(w: u32)
    requires w == 0x14000009
    ensures Reads(w, B(false, 9))
  {
  }

  lemma SubW0By1Decodes(w: u32)
    requires w == 0x51000400
    ensures Reads(w, AddSubImm(false, true, false, 1, 0, 0))
  {
  }

  lemma SubW0By2Decodes(w: u32)
    requires w == 0x51000800
    ensures Reads(w, AddSubImm(false, true, false, 2, 0, 0))
  {
  }

  lemma BlFrom16Decodes(w: u32)
    requires w == 0x97fffff0
    ensures Reads(w, B(true, 0x3fffff0))
  {
  }

  lemma BlFrom20Decodes(w: u32)
    requires w == 0x97ffffec
    ensures Reads(w, B(true, 0x3ffffec))
  {
  }

  lemma MovW19Decodes(w: u32)
    requires w == 0x2a0003f3
    ensures Reads(w, Orr(false, false, 0, 0, 0, 31, 19))
  {
  }

  lemma AddW0Decodes(w: u32)
    requires w == 0xb000260
    ensures Reads(w, AddSubReg(false, false, false, 0, 0, 0, 19, 0))
  {
  }

  lemma LdrX19Decodes(w: u32)
    requires w == 0xf9400bf3
    ensures Reads(w, Single(true, DWord, Offset, 2, 19, 31))
  {
  }

  lemma LdpDecodes(w: u32)
    requires w == 0xa8c37bfd
    ensures Reads(w, Pair(true, true, PostIndex, 6, 29, 30, 31))
  {
  }

  lemma RetDecodes(w: u32)
    requires w == 0xd65f03c0
    ensures Reads(w, Ret(30))
  {
  }

  lemma SubSpDecodes(w: u32)
    requires w == 0xd10083ff
    ensures Reads(w, AddSubImm(true, true, false, 32, 31, 31))
  {
  }

  lemma AddSpDecodes(w: u32)
    requires w == 0x910083ff
    ensures Reads(w, AddSubImm(true, false, false, 32, 31, 31))
  {
  }

  lemma StrW0At12Decodes(w: u32)
    requires w == 0xb9000fe0
    ensures Reads(w, Single(false, Word, Offset, 3, 0, 31))
  {
  }

  lemma StrWzrAt24Decodes(w: u32)
    requires w == 0xb9001bff
    ensures Reads(w, Single(false, Word, Offset, 6, 31, 31))
  {
  }

  lemma LdrW0At12Decodes(w: u32)
    requires w == 0xb9400fe0
    ensures Reads(w, Single(true, Word, Offset, 3, 0, 31))
  {
  }

  lemma StrW0At28Decodes(w: u32)
    requires w == 0xb9001fe0
    ensures Reads(w, Single(false, Word, Offset, 7, 0, 31))
  {
  }

  lemma BFrom5Decodes(w: u32)
    requires w == 0x14000008
    ensures Reads(w, B(false, 8))
  {
  }

  lemma LdrW1At24Decodes(w: u32)
    requires w == 0xb9401be1
    ensures Reads(w, Single(true, Word, Offset, 6, 1, 31))
  {
  }

  lemma LdrW0At28Decodes(w: u32)
    requires w == 0xb9401fe0
    ensures Reads(w, Single(true, Word, Offset, 7, 0, 31))
  {
  }

  lemma AddW0W1Decodes(w: u32)
    requires w == 0xb000020
    ensures Reads(w, AddSubReg(false, false, false, 0, 0, 0, 1, 0))
  {
  }

  lemma StrW0At24Decodes(w: u32)
    requires w == 0xb9001be0
    ensures Reads(w, Single(false, Word, Offset, 6, 0, 31))
  {
  }

  lemma BgtDecodes(w: u32)
    requires w == 0x54fffeec
    ensures Reads(w, BCond(12, 0x7fff7))
  {
  }

  lemma LdrW0At24Decodes(w: u32)
    requires w == 0xb9401be0
    ensures Reads(w, Single(true, Word, Offset, 6, 0, 31))
  {
  }
}
