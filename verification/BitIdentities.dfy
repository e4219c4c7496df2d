/**
  The shifts, masks and ors of the codec, on 32-bit words, equal the quotients, remainders and sums the other
  modules use.  Below the stated bounds none of the sums or products wraps, so they are also the integer ones.
*/
module BitIdentities {
  /** UTF8_SEQ_LENGTH. */
  lemma SequenceLengthTrick(ch: bv32)
    requires ch < 0x100
    ensures (((0xe5000000 as bv32) >> ((ch >> 3) & 0x1e)) & 3) + 1
         == if ch < 0xc0 then 1 else if ch < 0xe0 then 2 else if ch < 0xf0 then 3 else 4
  {
  }

  /** Recognizing continuation bytes, and the four leading byte masks. */
  lemma LeadingByteMasks(b: bv32)
    requires b < 0x100
    ensures b & 0xc0 == 0x80 <==> 0x80 <= b < 0xc0
    ensures b & 0xff == b && b & 0x1f == b % 0x20 && b & 0x0f == b % 0x10 && b & 0x07 == b % 0x08
  {
  }

  /** UTF8_SHIFT_AND_MASK. */
  lemma ShiftAndMask(ret: bv32, b: bv32)
    requires ret < 0x400_0000 && b < 0x100
    ensures (ret << 6) | (0x3f & b) == ret * 0x40 + b % 0x40
  {
  }

  /** The bytes of one encoded unit. */
  lemma EncoderBytes(uic: bv32)
    requires uic < 0x1_0000
    ensures (uic >> 12) | 0xe0 == 0xe0 + uic / 0x1000
    ensures ((uic >> 6) & 0x3f) | 0x80 == 0x80 + uic / 0x40 % 0x40
    ensures (uic & 0x3f) | 0x80 == 0x80 + uic % 0x40
    ensures uic <= 0x07ff ==> (uic >> 6) | 0xc0 == 0xc0 + uic / 0x40
  {
  }

  /** The two units of a surrogate pair. */
  lemma SurrogateHalves(ret: bv32)
    requires 0x1_0000 <= ret <= 0x10fffd
    ensures 0xd800 | ((ret - 0x1_0000) >> 10) == 0xd800 + (ret - 0x1_0000) / 0x400
    ensures 0xdc00 | ((ret - 0x1_0000) & 0x3ff) == 0xdc00 + (ret - 0x1_0000) % 0x400
  {
  }

  /** Rounding up to a page (and to a megabyte) by adding and clearing the low bits. */
  lemma AlignMask(len: bv32)
    ensures (len + 4095) & !4095 == (len + 4095) / 4096 * 4096
    ensures (len + 0xf_ffff) & !0xf_ffff == (len + 0xf_ffff) / 0x10_0000 * 0x10_0000
  {
  }
}
