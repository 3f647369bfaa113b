/**
 * The checksum engine of the STM32F4 (its CRC peripheral), as the IMUF9001
 * driver uses it: CRC-32 with polynomial 0x04C11DB7, register reset to
 * 0xFFFFFFFF, fed whole 32-bit words most significant bit first, no
 * reflection of input or output and no final XOR.
 */
module Crc32 {

  const POLY: bv32 := 0x04C1_1DB7
  const INIT: bv32 := 0xFFFF_FFFF
  const WORD_BYTES: nat := 4
  const WORD_BITS: nat := WORD_BYTES * 8

  /** One clock of the shift register: shift left, and XOR the polynomial in
      when the bit shifted out was set. */
  function Shift(c: bv32): bv32 {
    if c & 0x8000_0000 != 0 then (c << 1) ^ POLY else c << 1
  }

  function ShiftN(c: bv32, n: nat): bv32
    decreases n
  {
    if n == 0 then c else ShiftN(Shift(c), n - 1)
  }

  /** Writing one data word to the data register: the word is XORed into the
      register, then 32 clocks follow. */
  function Feed(crc: bv32, w: bv32): bv32 {
    ShiftN(crc ^ w, WORD_BITS)
  }

  /** The register after a reset followed by feeding `words` in order. */
  function Checksum(words: seq<bv32>): bv32
    decreases |words|
  {
    if words == [] then INIT else Feed(Checksum(words[..|words| - 1]), words[|words| - 1])
  }

  /** Checksum extends by one Feed per word appended. */
  lemma ChecksumSnoc(words: seq<bv32>, w: bv32)
    ensures Checksum(words + [w]) == Feed(Checksum(words), w)
  {
    assert (words + [w])[..|words + [w]| - 1] == words;
  }

  /** The polynomial has its x^0 term, so a shift is a bijection of the
      register: bit 0 of the result says whether the polynomial went in. */
  lemma ShiftInjective(a: bv32, b: bv32)
    ensures Shift(a) == Shift(b) ==> a == b
  {
    var ha, hb := a & 0x8000_0000 != 0, b & 0x8000_0000 != 0;
    if ha && hb {
      ShiftHighInjective(a, b);
    } else if !ha && !hb {
      ShiftLowInjective(a, b);
    } else if ha {
      ShiftSeparates(a, b);
    } else {
      ShiftSeparates(b, a);
    }
  }

  lemma ShiftHighInjective(a: bv32, b: bv32)
    requires a & 0x8000_0000 != 0 && b & 0x8000_0000 != 0
    ensures Shift(a) == Shift(b) ==> a == b
  {
  }

  lemma ShiftLowInjective(a: bv32, b: bv32)
    requires a & 0x8000_0000 == 0 && b & 0x8000_0000 == 0
    ensures Shift(a) == Shift(b) ==> a == b
  {
  }

  lemma ShiftSeparates(a: bv32, b: bv32)
    requires a & 0x8000_0000 != 0 && b & 0x8000_0000 == 0
    ensures Shift(a) != Shift(b)
  {
  }

  lemma {:induction false} ShiftNInjective(a: bv32, b: bv32, n: nat)
    ensures ShiftN(a, n) == ShiftN(b, n) ==> a == b
    decreases n
  {
    if n > 0 {
      ShiftNInjective(Shift(a), Shift(b), n - 1);
      ShiftInjective(a, b);
    }
  }

  /** For a fixed register value, distinct data words give distinct results. */
  lemma FeedInjectiveInWord(c: bv32, w: bv32, v: bv32)
    ensures Feed(c, w) == Feed(c, v) ==> w == v
  {
    ShiftNInjective(c ^ w, c ^ v, WORD_BITS);
    XorCancel(c, w, v);
  }

  /** For a fixed data word, distinct register values give distinct results. */
  lemma FeedInjectiveInRegister(c: bv32, d: bv32, w: bv32)
    ensures Feed(c, w) == Feed(d, w) ==> c == d
  {
    ShiftNInjective(c ^ w, d ^ w, WORD_BITS);
    XorCancel(w, c, d);
  }

  lemma XorCancel(k: bv32, x: bv32, y: bv32)
    ensures k ^ x == k ^ y ==> x == y
    ensures x ^ k == y ^ k ==> x == y
  {
  }

  /** Changing exactly one word of the input always changes the checksum; in
      particular every single flipped bit is detected. */
  lemma {:induction false} OneWordChangeDetected(s: seq<bv32>, t: seq<bv32>, k: nat)
    requires |s| == |t| && k < |s|
    requires s[k] != t[k]
    requires forall i :: 0 <= i < |s| && i != k ==> s[i] == t[i]
    ensures Checksum(s) != Checksum(t)
    decreases |s|
  {
    var n := |s| - 1;
    var ps, pt := s[..n], t[..n];
    assert Checksum(s) == Feed(Checksum(ps), s[n]);
    assert Checksum(t) == Feed(Checksum(pt), t[n]);
    if k == n {
      assert ps == pt;
      FeedInjectiveInWord(Checksum(ps), s[n], t[n]);
    } else {
      assert s[n] == t[n];
      assert forall i :: 0 <= i < n && i != k ==> ps[i] == pt[i];
      OneWordChangeDetected(ps, pt, k);
      FeedInjectiveInRegister(Checksum(ps), Checksum(pt), s[n]);
    }
  }

  /** The register after one data word 0x12345678 is 0xDF8A8A2B, the value
      the STM32 reference manual's CRC example gives; the proof clocks the
      register 32 times. */
  lemma ReferenceValue()
    ensures Checksum([0x1234_5678]) == 0xDF8A_8A2B
  {
    assert [0x1234_5678 as bv32][..0] == [];
    calc {
      Checksum([0x1234_5678]);
      Feed(INIT, 0x1234_5678);
      ShiftN(0xEDCB_A987, 32);
      { assert Shift(0xEDCB_A987) == 0xDF56_4EB9; }
      ShiftN(0xDF56_4EB9, 31);
      { assert Shift(0xDF56_4EB9) == 0xBA6D_80C5; }
      ShiftN(0xBA6D_80C5, 30);
      { assert Shift(0xBA6D_80C5) == 0x701A_1C3D; }
      ShiftN(0x701A_1C3D, 29);
      { assert Shift(0x701A_1C3D) == 0xE034_387A; }
      ShiftN(0xE034_387A, 28);
      { assert Shift(0xE034_387A) == 0xC4A9_6D43; }
      ShiftN(0xC4A9_6D43, 27);
      { assert Shift(0xC4A9_6D43) == 0x8D93_C731; }
      ShiftN(0x8D93_C731, 26);
      { assert Shift(0x8D93_C731) == 0x1FE6_93D5; }
      ShiftN(0x1FE6_93D5, 25);
      { assert Shift(0x1FE6_93D5) == 0x3FCD_27AA; }
      ShiftN(0x3FCD_27AA, 24);
      { assert Shift(0x3FCD_27AA) == 0x7F9A_4F54; }
      ShiftN(0x7F9A_4F54, 23);
      { assert Shift(0x7F9A_4F54) == 0xFF34_9EA8; }
      ShiftN(0xFF34_9EA8, 22);
      { assert Shift(0xFF34_9EA8) == 0xFAA8_20E7; }
      ShiftN(0xFAA8_20E7, 21);
      { assert Shift(0xFAA8_20E7) == 0xF191_5C79; }
      ShiftN(0xF191_5C79, 20);
      { assert Shift(0xF191_5C79) == 0xE7E3_A545; }
      ShiftN(0xE7E3_A545, 19);
      { assert Shift(0xE7E3_A545) == 0xCB06_573D; }
      ShiftN(0xCB06_573D, 18);
      { assert Shift(0xCB06_573D) == 0x92CD_B3CD; }
      ShiftN(0x92CD_B3CD, 17);
      { assert Shift(0x92CD_B3CD) == 0x215A_7A2D; }
      ShiftN(0x215A_7A2D, 16);
      { assert Shift(0x215A_7A2D) == 0x42B4_F45A; }
      ShiftN(0x42B4_F45A, 15);
      { assert Shift(0x42B4_F45A) == 0x8569_E8B4; }
      ShiftN(0x8569_E8B4, 14);
      { assert Shift(0x8569_E8B4) == 0x0E12_CCDF; }
      ShiftN(0x0E12_CCDF, 13);
      { assert Shift(0x0E12_CCDF) == 0x1C25_99BE; }
      ShiftN(0x1C25_99BE, 12);
      { assert Shift(0x1C25_99BE) == 0x384B_337C; }
      ShiftN(0x384B_337C, 11);
      { assert Shift(0x384B_337C) == 0x7096_66F8; }
      ShiftN(0x7096_66F8, 10);
      { assert Shift(0x7096_66F8) == 0xE12C_CDF0; }
      ShiftN(0xE12C_CDF0, 9);
      { assert Shift(0xE12C_CDF0) == 0xC698_8657; }
      ShiftN(0xC698_8657, 8);
      { assert Shift(0xC698_8657) == 0x89F0_1119; }
      ShiftN(0x89F0_1119, 7);
      { assert Shift(0x89F0_1119) == 0x1721_3F85; }
      ShiftN(0x1721_3F85, 6);
      { assert Shift(0x1721_3F85) == 0x2E42_7F0A; }
      ShiftN(0x2E42_7F0A, 5);
      { assert Shift(0x2E42_7F0A) == 0x5C84_FE14; }
      ShiftN(0x5C84_FE14, 4);
      { assert Shift(0x5C84_FE14) == 0xB909_FC28; }
      ShiftN(0xB909_FC28, 3);
      { assert Shift(0xB909_FC28) == 0x76D2_E5E7; }
      ShiftN(0x76D2_E5E7, 2);
      { assert Shift(0x76D2_E5E7) == 0xEDA5_CBCE; }
      ShiftN(0xEDA5_CBCE, 1);
      { assert Shift(0xEDA5_CBCE) == 0xDF8A_8A2B; }
      ShiftN(0xDF8A_8A2B, 0);
    }
  }
}
