/** The streaming SHA-256 hasher against padding per section 5.1.1 of FIPS 180-4 and block-wise compression. */
module Sha256 {
  import opened Results
  import opened Bits
  import opened BlockBuffer

  // The definition.

  /** The state after compressing the first `n` blocks of a message. */
  function Fold<S>(compress: (Bits, S) -> S, iv: S, message: Bits, n: nat): S
    requires BLOCK_SIZE * n <= |message|
  {
    if n == 0 then iv
    else compress(message[BLOCK_SIZE * (n - 1)..BLOCK_SIZE * n], Fold(compress, iv, message, n - 1))
  }

  lemma {:induction false} FoldExtends<S>(compress: (Bits, S) -> S, iv: S, message: Bits, more: Bits, n: nat)
    requires BLOCK_SIZE * n <= |message|
    ensures Fold(compress, iv, message + more, n) == Fold(compress, iv, message, n)
  {
    if n > 0 {
      FoldExtends(compress, iv, message, more, n - 1);
      assert (message + more)[BLOCK_SIZE * (n - 1)..BLOCK_SIZE * n] == message[BLOCK_SIZE * (n - 1)..BLOCK_SIZE * n];
    }
  }

  /** The mirror image of a bit position within its byte. */
  function Mirror(i: nat): nat {
    if i < 8 then 7 - i else 8 + Mirror(i - 8)
  }

  /** The mirror image stays in its byte. */
  lemma {:induction false} MirrorByte(i: nat, q: nat, r: nat)
    requires i == 8 * q + r && r < 8
    ensures Mirror(i) == 8 * q + (7 - r) && Mirror(i) / 8 == q && Mirror(i) % 8 == 7 - r
  {
    if q > 0 {
      MirrorByte(i - 8, q - 1, r);
    }
  }

  lemma MirrorShift(n: nat, j: nat)
    ensures Mirror(8 * n + j) == 8 * n + Mirror(j)
  {
    MirrorByte(j, j / 8, j % 8);
    MirrorByte(8 * n + j, n + j / 8, j % 8);
  }

  lemma MirrorBound(i: nat, n: nat)
    requires i < 8 * n
    ensures Mirror(i) < 8 * n
  {
    MirrorByte(i, i / 8, i % 8);
  }

  /** Bits are held least significant first within a byte; the standard numbers them most significant first. */
  function StandardOrder(bits: Bits): (r: Bits)
    requires |bits| % 8 == 0
    ensures |r| == |bits|
  {
    seq(|bits|, i requires 0 <= i < |bits| => MirrorBound(i, |bits| / 8); bits[Mirror(i)])
  }

  lemma FilledUp(v: nat, d: nat)
    requires d > 0
    ensures (d - v % d) % d < d && (v + (d - v % d) % d) % d == 0
  {
    var q, r := v / d, v % d;
    assert v == d * q + r;
    if r == 0 {
      DivModUnique(d, d, 1, 0);
      DivModUnique(v, d, q, 0);
    } else {
      DivModUnique(d - r, d, 0, d - r);
      assert d * (q + 1) == d * q + d;
      DivModUnique(v + (d - r), d, q + 1, 0);
    }
  }

  /** Number of zero bits between the 1 bit and the length. */
  function ZeroBits(len: nat): (k: nat)
    ensures (len + 1 + k + 64) % 512 == 0 && k < 512
  {
    FilledUp(len + 65, 512);
    (512 - (len + 65) % 512) % 512
  }

  /** The padding of section 5.1.1 of FIPS 180-4, in the standard's bit order. */
  function StandardPadding(len: nat): Bits {
    [true] + Zeros(ZeroBits(len)) + Reverse(FromNat(len, 64))
  }

  /** `padded` is the standard's padding of a message of whole bytes. */
  predicate IsPadded(message: Bits, padded: Bits) {
    && |message| % 8 == 0 && |padded| % 8 == 0 && |padded| % 512 == 0
    && StandardOrder(padded) == StandardOrder(message) + StandardPadding(|message|)
  }

  // The padding as computed.

  function NextMultiple(v: nat, d: nat): nat
    requires d > 0
  {
    if v % d == 0 then v else v + (d - v % d)
  }

  lemma RoundedUp(v: nat)
    ensures NextMultiple(v, 512) % 512 == 0 && NextMultiple(v, 512) == v + (512 - v % 512) % 512
  {
  }

  /** The length as eight big-endian bytes, each least significant bit first. */
  function BigEndianBytes(v: nat): (r: Bits)
    ensures |r| == 64
  {
    var bits := FromNat(v, 64);
    seq(64, i requires 0 <= i < 64 => bits[8 * (7 - i / 8) + i % 8])
  }

  function PaddingLength(len: nat): (r: nat)
    ensures r >= 65 && (len + r) % BLOCK_SIZE == 0 && r == 65 + ZeroBits(len)
  {
    RoundedUp(len + 65);
    NextMultiple(len + 1 + 64, BLOCK_SIZE) - len
  }

  function Padding(len: nat): (r: Bits)
    ensures |r| == PaddingLength(len)
  {
    var n := PaddingLength(len);
    Zeros(n)[7 := true][..n - 64] + BigEndianBytes(len)
  }

  lemma LengthOrder(v: nat)
    ensures StandardOrder(BigEndianBytes(v)) == Reverse(FromNat(v, 64))
  {
    var bytes, bits := BigEndianBytes(v), FromNat(v, 64);
    forall i | 0 <= i < 64 ensures StandardOrder(bytes)[i] == Reverse(bits)[i] {
      MirrorByte(i, i / 8, i % 8);
    }
  }

  lemma StandardOrderConcat(a: Bits, b: Bits)
    requires |a| % 8 == 0 && |b| % 8 == 0
    ensures StandardOrder(a + b) == StandardOrder(a) + StandardOrder(b)
  {
    forall i | 0 <= i < |a + b| ensures StandardOrder(a + b)[i] == (StandardOrder(a) + StandardOrder(b))[i] {
      if i >= |a| {
        MirrorShift(|a| / 8, i - |a|);
        MirrorBound(i - |a|, |b| / 8);
      } else {
        MirrorBound(i, |a| / 8);
      }
    }
  }

  lemma MarkerOrder(n: nat)
    requires n >= 8 && n % 8 == 0
    ensures StandardOrder(Zeros(n)[7 := true]) == [true] + Zeros(n - 1)
  {
    var marked, expected := StandardOrder(Zeros(n)[7 := true]), [true] + Zeros(n - 1);
    forall i | 0 <= i < n ensures marked[i] == expected[i] {
      MirrorByte(i, i / 8, i % 8);
      MirrorBound(i, n / 8);
    }
  }

  lemma PaddingAligned(len: nat)
    requires len % 8 == 0
    ensures PaddingLength(len) % 8 == 0 && PaddingLength(len) >= 72
  {
    Aligned(len, PaddingLength(len));
  }

  lemma Aligned(len: nat, r: nat)
    requires (len + r) % 512 == 0 && len % 8 == 0
    ensures r % 8 == 0
  {
    var q, p := (len + r) / 512, len / 8;
    assert r == 8 * (64 * q - p);
  }

  /** The computed padding, in the standard's bit order. */
  lemma PaddingOrder(len: nat, n: nat)
    requires n == PaddingLength(len) && n % 8 == 0 && n >= 72
    ensures StandardOrder(Padding(len)) == StandardPadding(len)
  {
    var head, tail := Zeros(n)[7 := true][..n - 64], BigEndianBytes(len);
    assert head == Zeros(n - 64)[7 := true];
    MarkerOrder(n - 64);
    LengthOrder(len);
    StandardOrderConcat(head, tail);
    PaddingPieces(n - 64, ZeroBits(len), Reverse(FromNat(len, 64)));
  }

  lemma SumAligned(a: nat, b: nat)
    requires a % 8 == 0 && b % 8 == 0
    ensures (a + b) % 8 == 0
  {
    DivModUnique(a + b, 8, a / 8 + b / 8, 0);
  }

  lemma PaddedOrder(message: Bits, padding: Bits, padded: Bits)
    requires |message| % 8 == 0 && |padding| % 8 == 0 && padded == message + padding
        && (|message| + |padding|) % BLOCK_SIZE == 0
    requires StandardOrder(padding) == StandardPadding(|message|)
    ensures IsPadded(message, padded)
  {
    SumAligned(|message|, |padding|);
    StandardOrderConcat(message, padding);
  }

  /** The computed padding is the standard's. */
  lemma PaddingCorrect(message: Bits)
    requires |message| % 8 == 0
    ensures IsPadded(message, message + Padding(|message|))
  {
    var len := |message|;
    PaddingAligned(len);
    PaddingOrder(len, PaddingLength(len));
    PaddedOrder(message, Padding(len), message + Padding(len));
  }

  /** Bit order can be undone, so the standard leaves no choice of padding. */
  lemma StandardOrderInjective(a: Bits, b: Bits)
    requires |a| % 8 == 0 && |b| % 8 == 0 && StandardOrder(a) == StandardOrder(b)
    ensures a == b
  {
    assert |a| == |StandardOrder(a)| == |StandardOrder(b)| == |b|;
    forall i | 0 <= i < |a| ensures a[i] == b[i] {
      var j := Mirror(i);
      MirrorBound(i, |a| / 8);
      MirrorByte(i, i / 8, i % 8);
      MirrorByte(j, i / 8, 7 - i % 8);
      assert StandardOrder(a)[j] == StandardOrder(b)[j];
    }
  }

  lemma PaddingUnique(message: Bits, padded: Bits)
    requires IsPadded(message, padded)
    ensures padded == message + Padding(|message|)
  {
    PaddingCorrect(message);
    StandardOrderInjective(padded, message + Padding(|message|));
  }

  /** The message has a standard padding, and for it the digest is the fold of the compression function over its blocks.
      */
  ghost predicate IsDigest<S, D>(serialize: S -> D, compress: (Bits, S) -> S, iv: S, message: Bits, digest: D) {
    && (exists padded: Bits :: IsPadded(message, padded))
    && forall padded: Bits :: IsPadded(message, padded)
                              ==> digest == serialize(Fold(compress, iv, padded, |padded| / BLOCK_SIZE))
  }

  lemma DigestCorrect<S, D>(serialize: S -> D, compress: (Bits, S) -> S, iv: S, message: Bits, padded: Bits, st: S)
    requires |message| % 8 == 0 && padded == message + Padding(|message|)
    requires st == Fold(compress, iv, padded, |padded| / BLOCK_SIZE)
    ensures IsDigest(serialize, compress, iv, message, serialize(st))
  {
    PaddingCorrect(message);
    forall p: Bits | IsPadded(message, p)
      ensures serialize(st) == serialize(Fold(compress, iv, p, |p| / BLOCK_SIZE))
    {
      PaddingUnique(message, p);
    }
  }

  lemma PaddingPieces(m: nat, k: nat, tail: Bits)
    requires m == k + 1
    ensures ([true] + Zeros(m - 1)) + tail == [true] + Zeros(k) + tail
  {
  }

  // The hasher.

  class Hasher<S(!new)> {
    const compress: (Bits, S) -> S
    const iv: S
    var state: Option<S>
    var blocks: seq<Buffered>
    var processed: nat
    /** Everything hashed so far. */
    ghost var message: Bits

    ghost predicate Valid()
      reads this
    {
      && BlocksOk(blocks) && BLOCK_SIZE * processed <= |message|
      && message[BLOCK_SIZE * processed..] == AllBits(blocks)
      && CurrentState() == Fold(compress, iv, message, processed)
    }

    function CurrentState(): S
      reads this
    {
      if state.Some? then state.value else iv
    }

    constructor (compress: (Bits, S) -> S, iv: S)
      ensures Valid() && message == [] && this.compress == compress && this.iv == iv
    {
      this.compress, this.iv := compress, iv;
      state, blocks, processed, message := None, [], 0, [];
    }

    constructor Clone(from: Hasher<S>)
      requires from.Valid()
      ensures Valid() && message == from.message && compress == from.compress && iv == from.iv
    {
      compress, iv := from.compress, from.iv;
      state, blocks, processed, message := from.state, from.blocks, from.processed, from.message;
    }

    /** Hashes whole bytes. */
    method Update(data: seq<Byte>)
      requires Valid() && |message| % 8 == 0
      modifies this
      ensures Valid() && |message| % 8 == 0 && message == old(message) + ByteBits(data)
    {
      ghost var len := |message|;
      WholeBytes(len, |data|);
      UpdateSlice(ByteBits(data));
    }

    /** Appends data to the buffer. */
    method UpdateSlice(data: Bits)
      requires Valid()
      modifies this
      ensures Valid() && message == old(message) + data
    {
      FoldExtends(compress, iv, message, data, processed);
      blocks := Append(blocks, data);
      message := message + data;
    }

    /** Compresses every full block of the buffer. */
    method Compress()
      requires Valid()
      modifies this
      ensures Valid() && message == old(message)
      ensures |blocks| <= 1 && forall i | 0 <= i < |blocks| :: blocks[i].len < BLOCK_SIZE
    {
      var pos := FirstNotFull(blocks);
      var st := CompressFull(compress, iv, blocks, pos, CurrentState(), message, processed);
      AllBitsSplit(blocks, pos);
      FullPrefix(blocks, pos);
      DropBits(message, AllBits(blocks[..pos]), AllBits(blocks[pos..]), BLOCK_SIZE * processed);
      blocks := blocks[pos..];
      processed := processed + pos;
      state := Some(st);
    }

    /** Appends padding that completes the last block, and compresses everything; no block is left. */
    method Close(padding: Bits) returns (st: S)
      requires Valid() && (|message| + |padding|) % BLOCK_SIZE == 0
      modifies this
      ensures blocks == [] && st == Fold(compress, iv, old(message) + padding, |old(message) + padding| / BLOCK_SIZE)
    {
      UpdateSlice(padding);
      Compress();
      NothingLeft(blocks, |message|, processed);
      st := CurrentState();
    }

    /** The digest of everything hashed so far, with the standard's padding; the hasher itself is unchanged. */
    method Finalize<D>(serialize: S -> D) returns (digest: D)
      requires Valid() && |message| % 8 == 0
      ensures IsDigest(serialize, compress, iv, message, digest)
    {
      var hasher := new Hasher.Clone(this);
      var len := processed * BLOCK_SIZE + TotalLength(blocks);
      TotalIsLength(blocks);
      assert len == |message|;
      ghost var padded := message + Padding(len);
      var st := hasher.Close(Padding(len));
      digest := serialize(st);
      DigestCorrect(serialize, compress, iv, message, padded, st);
    }
  }

  lemma WholeBytes(len: nat, n: nat)
    requires len % 8 == 0
    ensures (len + 8 * n) % 8 == 0
  {
  }

  method FirstNotFull(blocks: seq<Buffered>) returns (pos: nat)
    requires BlocksOk(blocks)
    ensures pos <= |blocks| && (forall i | 0 <= i < pos :: blocks[i].len == BLOCK_SIZE)
    ensures |blocks| - pos <= 1 && (pos < |blocks| ==> blocks[pos].len < BLOCK_SIZE)
  {
    pos := 0;
    while pos < |blocks| && blocks[pos].len == BLOCK_SIZE
      invariant pos <= |blocks| && forall i | 0 <= i < pos :: blocks[i].len == BLOCK_SIZE
    {
      pos := pos + 1;
    }
  }

  /** Folds the compression function over the first `pos` blocks. */
  method CompressFull<S>(compress: (Bits, S) -> S, ghost iv: S, blocks: seq<Buffered>, pos: nat, st0: S,
                         ghost message: Bits, ghost processed: nat)
    returns (st: S)
    requires BlocksOk(blocks) && pos <= |blocks| && forall i | 0 <= i < pos :: blocks[i].len == BLOCK_SIZE
    requires BLOCK_SIZE * processed <= |message| && message[BLOCK_SIZE * processed..] == AllBits(blocks)
    requires st0 == Fold(compress, iv, message, processed)
    ensures BLOCK_SIZE * (processed + pos) <= |message| && st == Fold(compress, iv, message, processed + pos)
  {
    st := st0;
    for i := 0 to pos
      invariant BLOCK_SIZE * (processed + i) <= |message| && st == Fold(compress, iv, message, processed + i)
    {
      BlockAt(blocks, message, processed, i);
      st := compress(Joined(blocks[i].data), st);
    }
  }

  /** Buffered block `i` is the next block of the message. */
  lemma BlockAt(blocks: seq<Buffered>, message: Bits, processed: nat, i: nat)
    requires BlocksOk(blocks) && i < |blocks| && forall j | 0 <= j <= i :: blocks[j].len == BLOCK_SIZE
    requires BLOCK_SIZE * processed <= |message| && message[BLOCK_SIZE * processed..] == AllBits(blocks)
    ensures BLOCK_SIZE * (processed + i + 1) <= |message|
    ensures Joined(blocks[i].data) == message[BLOCK_SIZE * (processed + i)..BLOCK_SIZE * (processed + i + 1)]
  {
    var a, b, c := AllBits(blocks[..i]), Joined(blocks[i].data), AllBits(blocks[i + 1..]);
    BlocksAround(blocks, i);
    FullPrefix(blocks, i);
    assert |b| == BLOCK_SIZE;
    BlockOf(message, processed, i, a, b, c);
  }

  lemma BlockOf(m: Bits, processed: nat, i: nat, a: Bits, b: Bits, c: Bits)
    requires BLOCK_SIZE * processed <= |m| && m[BLOCK_SIZE * processed..] == a + b + c && |a| == BLOCK_SIZE * i
        && |b| == BLOCK_SIZE
    ensures BLOCK_SIZE * (processed + i + 1) <= |m|
        && b == m[BLOCK_SIZE * (processed + i)..BLOCK_SIZE * (processed + i + 1)]
  {
    SliceOf(m, BLOCK_SIZE * processed, a, b, c);
  }

  lemma SliceOf(m: Bits, n: nat, a: Bits, b: Bits, c: Bits)
    requires n <= |m| && m[n..] == a + b + c
    ensures n + |a| + |b| <= |m| && m[n + |a|..n + |a| + |b|] == b
  {
    assert m[n + |a|..n + |a| + |b|] == m[n..][|a|..|a| + |b|];
  }

  lemma DropBits(m: Bits, a: Bits, b: Bits, n: nat)
    requires n <= |m| && m[n..] == a + b
    ensures n + |a| <= |m| && m[n + |a|..] == b
  {
    assert m[n + |a|..] == m[n..][|a|..];
  }

  function TotalLength(blocks: seq<Buffered>): nat {
    if blocks == [] then 0 else TotalLength(blocks[..|blocks| - 1]) + blocks[|blocks| - 1].len
  }

  lemma {:induction false} TotalIsLength(blocks: seq<Buffered>)
    requires forall i | 0 <= i < |blocks| :: blocks[i].len == |Joined(blocks[i].data)|
    ensures TotalLength(blocks) == |AllBits(blocks)|
  {
    if blocks != [] {
      TotalIsLength(blocks[..|blocks| - 1]);
    }
  }

  /** After padding, compression leaves no partly filled block. */
  lemma NothingLeft(blocks: seq<Buffered>, total: nat, processed: nat)
    requires BlocksOk(blocks) && |blocks| <= 1 && (forall i | 0 <= i < |blocks| :: blocks[i].len < BLOCK_SIZE)
    requires total % BLOCK_SIZE == 0 && total == BLOCK_SIZE * processed + |AllBits(blocks)|
    ensures blocks == [] && BLOCK_SIZE * processed == total
  {
    if blocks != [] {
      assert blocks[..0] == [];
      PartialBlock(total, processed, blocks[0].len);
      assert false;
    }
  }

  lemma PartialBlock(total: nat, processed: nat, len: nat)
    requires total % BLOCK_SIZE == 0 && 0 < len < BLOCK_SIZE
    ensures total != BLOCK_SIZE * processed + len
  {
    if total == BLOCK_SIZE * processed + len {
      DivModUnique(total, BLOCK_SIZE, processed, len);
    }
  }
}
