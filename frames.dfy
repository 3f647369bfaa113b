/**
 * The IMUF9001 command/reply frame. The header that declares imufCommand_t
 * is not part of this model; the frame is thirteen 32-bit words: word 0 is the
 * command, words 1..10 are param1..param10, word 11 is the crc and word 12 a
 * trailing word the driver never touches. The checksum covers the first
 * eleven words (command and param1..param10).
 */
module Frames {
  import opened Crc32

  const FRAME_WORDS: nat := 13
  const CHECKED_WORDS: nat := 11
  const CRC_WORD: nat := 11

  type Frame = f: seq<bv32> | |f| == FRAME_WORDS
    witness [0, 0, 0, 0, 0, 0, 0, 0, 0, 0, 0, 0, 0]

  /** A frame after memset(…, 0, sizeof(imufCommand_t)). */
  const ZERO_FRAME: Frame := [0, 0, 0, 0, 0, 0, 0, 0, 0, 0, 0, 0, 0]

  // Command and reply codes (gyroCommands_t) used by the driver.
  const IMUF_COMMAND_NONE: bv32 := 0
  const BL_ERASE_ALL: bv32 := 22
  const BL_WRITE_FIRMWARES: bv32 := 41
  const BL_LISTENING: bv32 := 88
  const IMUF_COMMAND_LISTENING: bv32 := 108
  const IMUF_COMMAND_REPORT_INFO: bv32 := 121
  const IMUF_COMMAND_SETUP: bv32 := 122

  function Opcode(f: Frame): bv32 { f[0] }

  /** The checksum a receiver recomputes: reset, then the first eleven words. */
  function FrameCrc(f: Frame): bv32 { Checksum(f[..CHECKED_WORDS]) }

  /** A frame whose stored crc matches its first eleven words. */
  predicate CrcValid(f: Frame) { FrameCrc(f) == f[CRC_WORD] }

  /** `command.command = op; command.crc = getCrcImuf9001(&command, 11);` */
  function Seal(f: Frame, op: bv32): (g: Frame)
    ensures Opcode(g) == op && CrcValid(g)
    ensures forall i :: 0 < i < FRAME_WORDS && i != CRC_WORD ==> g[i] == f[i]
  {
    var h := f[0 := op];
    assert h[CRC_WORD := FrameCrc(h)][..CHECKED_WORDS] == h[..CHECKED_WORDS];
    h[CRC_WORD := FrameCrc(h)]
  }

  /** Resealing with another opcode forgets the first one entirely: the crc
      word is not among the words it covers. */
  lemma SealTwice(f: Frame, a: bv32, b: bv32)
    ensures Seal(Seal(f, a), b) == Seal(f, b)
  {
    assert Seal(f, a)[0 := b][..CHECKED_WORDS] == f[0 := b][..CHECKED_WORDS];
  }

  /** Every single flipped bit in the checked words or in the crc word makes
      the check fail. */
  lemma BitFlipDetected(f: Frame, k: nat, b: nat)
    requires CrcValid(f) && k <= CRC_WORD && b < 32
    ensures !CrcValid(f[k := f[k] ^ (1 << b)])
  {
    var g := f[k := f[k] ^ (1 << b)];
    assert f[k] ^ (1 << b) != f[k];
    if k < CHECKED_WORDS {
      OneWordChangeDetected(f[..CHECKED_WORDS], g[..CHECKED_WORDS], k);
    } else {
      assert g[..CHECKED_WORDS] == f[..CHECKED_WORDS];
    }
  }

  /** The opcodes with which a device answers that it is listening: the
      application's and the bootloader's. */
  predicate IsListening(op: bv32) {
    op == IMUF_COMMAND_LISTENING || op == BL_LISTENING
  }
}
