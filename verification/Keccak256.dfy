/** The padding of the Keccak-256 hasher against pad10*1 of section 5.1 of FIPS 202. */
module Keccak256 {
  import opened Bits
  import opened BlockBuffer

  /** Input block size in bits. */
  const RATE: nat := 1088

  /** `padding` is the shortest string 1 0* 1 that fills up the blocks of a message of `len` bits. */
  predicate IsPad101(len: nat, padding: Bits) {
    && (len + |padding|) % RATE == 0 && 2 <= |padding| < RATE + 2
    && padding == [true] + Zeros(|padding| - 2) + [true]
  }

  /** Bits the code appends when the last block holds `used` bits: a block more if two bytes do not fit. */
  function PaddingLength(used: nat): (r: nat)
    requires used < RATE
    ensures r >= 16
  {
    if RATE - used < 16 then 2 * RATE - used else RATE - used
  }

  /** The bytes the code appends: 0x01, zeros, 0x80. */
  function PaddingBytes(used: nat): (r: seq<Byte>)
    requires used < RATE && used % 8 == 0
    ensures |r| == PaddingLength(used) / 8
  {
    var n := PaddingLength(used) / 8;
    seq(n, _ => Zeros(8))[0 := [true] + Zeros(7)][n - 1 := Zeros(7) + [true]]
  }

  lemma {:induction false} ByteBitsAt(bytes: seq<Byte>, i: nat, k: nat)
    requires i < |bytes| && k < 8
    ensures ByteBits(bytes)[8 * i + k] == bytes[i][k]
  {
    var n := |bytes| - 1;
    if i < n {
      ByteBitsAt(bytes[..n], i, k);
    }
  }

  /** The appended bytes are a one, zeros and a one. */
  lemma PaddingShape(used: nat, n: nat)
    requires used < RATE && used % 8 == 0 && 8 * n == PaddingLength(used)
    ensures ByteBits(PaddingBytes(used)) == [true] + Zeros(8 * n - 2) + [true]
  {
    var bytes := PaddingBytes(used);
    DivModUnique(8 * n, 8, n, 0);
    var bits, shape := ByteBits(bytes), [true] + Zeros(8 * n - 2) + [true];
    forall p | 0 <= p < 8 * n ensures bits[p] == shape[p] {
      ByteBitsAt(bytes, p / 8, p % 8);
    }
  }

  lemma WholeBytes(used: nat) returns (n: nat)
    requires used < RATE && used % 8 == 0
    ensures 8 * n == PaddingLength(used)
  {
    n := (if RATE - used < 16 then 2 * 136 else 136) - used / 8;
  }

  /** Either length fills the last block. */
  lemma FillsBlocks(len: nat, used: nat, length: nat)
    requires used == len % RATE && (length == RATE - used || length == 2 * RATE - used)
    ensures (len + length) % RATE == 0
  {
    DivModUnique(len + length, RATE, len / RATE + if length == RATE - used then 1 else 2, 0);
  }

  /** For a message of whole bytes the appended bits are the standard's padding exactly if the last block does not
      have just one free byte. */
  lemma PaddingStandardIff(len: nat)
    requires len % 8 == 0
    ensures len % RATE % 8 == 0
    ensures IsPad101(len, ByteBits(PaddingBytes(len % RATE))) <==> RATE - len % RATE != 8
  {
    var used, m := len % RATE, len / 8;
    assert used == 8 * (m - 136 * (len / RATE));
    DivModUnique(used, 8, m - 136 * (len / RATE), 0);
    var n := WholeBytes(used);
    PaddingShape(used, n);
    FillsBlocks(len, used, 8 * n);
  }

  /** With 135 bytes in the block the code appends 137 bytes; the standard appends the one byte 0x81. */
  lemma OneFreeByte()
    ensures |ByteBits(PaddingBytes(1080))| == 1096
    ensures IsPad101(1080, [true] + Zeros(6) + [true])
  {
    DivModUnique(1080 + 8, RATE, 1, 0);
  }
}
