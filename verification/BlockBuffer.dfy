/** The block buffer of the streaming hashers: data is kept as slices, grouped into blocks of 512 bits. */
module BlockBuffer {
  import opened Bits

  /** Block size in bits. */
  const BLOCK_SIZE: nat := 512

  /** A buffered block: the slices given so far and their total length. */
  datatype Buffered = Buffered(data: seq<Bits>, len: nat)

  function Joined(data: seq<Bits>): Bits {
    if data == [] then [] else Joined(data[..|data| - 1]) + data[|data| - 1]
  }

  function AllBits(blocks: seq<Buffered>): Bits {
    if blocks == [] then [] else AllBits(blocks[..|blocks| - 1]) + Joined(blocks[|blocks| - 1].data)
  }

  /** Every buffered block but the last is full, and none is empty. */
  predicate BlocksOk(blocks: seq<Buffered>) {
    && (forall i | 0 <= i < |blocks| :: blocks[i].len == |Joined(blocks[i].data)| && 0 < blocks[i].len <= BLOCK_SIZE)
    && (forall i | 0 <= i < |blocks| - 1 :: blocks[i].len == BLOCK_SIZE)
  }

  lemma AllBitsPush(blocks: seq<Buffered>, b: Buffered)
    ensures AllBits(blocks + [b]) == AllBits(blocks) + Joined(b.data)
  {
    assert (blocks + [b])[..|blocks + [b]| - 1] == blocks;
  }

  lemma JoinedPush(data: seq<Bits>, d: Bits)
    ensures Joined(data + [d]) == Joined(data) + d
  {
    assert (data + [d])[..|data + [d]| - 1] == data;
  }

  lemma JoinedOne(d: Bits)
    ensures Joined([d]) == d
  {
    assert [d][..0] == [];
  }

  /** The first `n` buffered blocks, all full, hold the first `n` blocks of the buffered bits. */
  lemma {:induction false} FullPrefix(blocks: seq<Buffered>, n: nat)
    requires BlocksOk(blocks) && n <= |blocks| && forall i | 0 <= i < n :: blocks[i].len == BLOCK_SIZE
    ensures |AllBits(blocks[..n])| == BLOCK_SIZE * n
  {
    if n > 0 {
      assert blocks[..n][..n - 1] == blocks[..n - 1];
      FullPrefix(blocks, n - 1);
    }
  }

  lemma ConcatAssociates(a: Bits, b: Bits, c: Bits)
    ensures (a + b) + c == a + (b + c)
  {
  }

  lemma SplitLast(blocks: seq<Buffered>)
    requires blocks != []
    ensures AllBits(blocks) == AllBits(blocks[..|blocks| - 1]) + Joined(blocks[|blocks| - 1].data)
  {
  }

  lemma SuffixSlices<T>(s: seq<T>, n: nat, m: nat)
    requires n <= m && m + 1 == |s|
    ensures s[..m][..n] == s[..n] && s[..m][n..] == s[n..][..m - n] && |s[n..]| == m - n + 1 && s[n..][m - n] == s[m]
  {
  }

  lemma {:induction false} AllBitsSplit(blocks: seq<Buffered>, n: nat)
    requires n <= |blocks|
    ensures AllBits(blocks) == AllBits(blocks[..n]) + AllBits(blocks[n..])
  {
    if n == |blocks| {
      assert blocks[..n] == blocks && blocks[n..] == [];
    } else {
      var m := |blocks| - 1;
      AllBitsSplit(blocks[..m], n);
      SuffixSlices(blocks, n, m);
      SplitLast(blocks);
      SplitLast(blocks[n..]);
      ConcatAssociates(AllBits(blocks[..n]), AllBits(blocks[n..][..m - n]), Joined(blocks[m].data));
    }
  }

  /** The bits of whole bytes. */
  function ByteBits(data: seq<Byte>): (r: Bits)
    ensures |r| == 8 * |data|
  {
    if data == [] then [] else ByteBits(data[..|data| - 1]) + data[|data| - 1]
  }

  lemma PrefixStep(data: Bits, k: nat, n: nat)
    requires k + n <= |data|
    ensures data[..k] + data[k..][..n] == data[..k + n] && data[k..][n..] == data[k + n..]
  {
  }

  lemma BlocksAround(blocks: seq<Buffered>, i: nat)
    requires i < |blocks|
    ensures AllBits(blocks) == AllBits(blocks[..i]) + Joined(blocks[i].data) + AllBits(blocks[i + 1..])
  {
    AllBitsSplit(blocks, i + 1);
    AllBitsNext(blocks, i);
  }

  lemma AllBitsNext(blocks: seq<Buffered>, i: nat)
    requires i < |blocks|
    ensures AllBits(blocks[..i + 1]) == AllBits(blocks[..i]) + Joined(blocks[i].data)
  {
    assert blocks[..i + 1] == blocks[..i] + [blocks[i]];
    AllBitsPush(blocks[..i], blocks[i]);
  }

  /** The buffer has no partly filled block. */
  predicate NoRoom(blocks: seq<Buffered>) {
    blocks == [] || blocks[|blocks| - 1].len == BLOCK_SIZE
  }

  lemma LastFilled(blocks: seq<Buffered>, left: Bits, b: Buffered, blocks': seq<Buffered>)
    requires BlocksOk(blocks) && blocks != [] && blocks' == blocks[|blocks| - 1 := b]
    requires b.data == blocks[|blocks| - 1].data + [left] && b.len == blocks[|blocks| - 1].len + |left| <= BLOCK_SIZE
    ensures BlocksOk(blocks') && AllBits(blocks') == AllBits(blocks) + left
  {
    var n := |blocks| - 1;
    JoinedPush(blocks[n].data, left);
    SplitLast(blocks);
    SplitLast(blocks');
    SameStart(blocks, blocks', n);
    ConcatAssociates(AllBits(blocks[..n]), Joined(blocks[n].data), left);
  }

  lemma SameStart(blocks: seq<Buffered>, blocks': seq<Buffered>, n: nat)
    requires n < |blocks| == |blocks'| && blocks' == blocks[n := blocks'[n]]
    ensures blocks'[..n] == blocks[..n]
  {
  }

  /** Adds as much data as fits to a partly filled last block. */
  method TopUp(blocks: seq<Buffered>, data: Bits) returns (blocks': seq<Buffered>, k: nat)
    requires BlocksOk(blocks)
    ensures k <= |data| && BlocksOk(blocks') && AllBits(blocks') == AllBits(blocks) + data[..k]
        && (k < |data| ==> NoRoom(blocks'))
  {
    blocks', k := blocks, 0;
    if blocks != [] && blocks[|blocks| - 1].len < BLOCK_SIZE {
      var b := blocks[|blocks| - 1];
      var diff := BLOCK_SIZE - b.len;
      k := if diff <= |data| then diff else |data|;
      var filled := Buffered(b.data + [data[..k]], b.len + k);
      blocks' := blocks[|blocks| - 1 := filled];
      LastFilled(blocks, data[..k], filled, blocks');
    } else {
      assert AllBits(blocks) == AllBits(blocks) + data[..0];
    }
  }

  /** One more block of new data. */
  lemma NewBlock(blocks: seq<Buffered>, start: Bits, data: Bits, k: nat, n: nat, part: Bits, next: seq<Buffered>)
    requires BlocksOk(blocks) && NoRoom(blocks) && k + n <= |data| && AllBits(blocks) == start + data[..k]
    requires 0 < n <= BLOCK_SIZE && part == data[k..][..n] && next == blocks + [Buffered([part], n)]
    ensures BlocksOk(next) && AllBits(next) == start + data[..k + n] && data[k..][n..] == data[k + n..]
    ensures n == BLOCK_SIZE ==> NoRoom(next)
  {
    JoinedOne(part);
    AllBitsPush(blocks, Buffered([part], n));
    PrefixStep(data, k, n);
    ConcatAssociates(start, data[..k], part);
  }

  /** Partitions data into new blocks. */
  method Partition(blocks: seq<Buffered>, data: Bits) returns (blocks': seq<Buffered>)
    requires BlocksOk(blocks) && (data == [] || NoRoom(blocks))
    ensures BlocksOk(blocks') && AllBits(blocks') == AllBits(blocks) + data
  {
    blocks' := blocks;
    var rest := data;
    ghost var k, start := 0, AllBits(blocks);
    assert start == start + data[..0];
    while |rest| > 0
      invariant k <= |data| && rest == data[k..] && (rest == [] || NoRoom(blocks'))
      invariant BlocksOk(blocks') && AllBits(blocks') == start + data[..k]
      decreases |rest|
    {
      var n := if BLOCK_SIZE <= |rest| then BLOCK_SIZE else |rest|;
      var next := blocks' + [Buffered([rest[..n]], n)];
      NewBlock(blocks', start, data, k, n, rest[..n], next);
      blocks' := next;
      rest := rest[n..];
      k := k + n;
    }
    assert data[..k] == data;
  }

  /** Appends data: first to a partly filled last block, then as new blocks. */
  method Append(blocks: seq<Buffered>, data: Bits) returns (blocks': seq<Buffered>)
    requires BlocksOk(blocks)
    ensures BlocksOk(blocks') && AllBits(blocks') == AllBits(blocks) + data
  {
    if |data| == 0 {
      assert AllBits(blocks) == AllBits(blocks) + data;
      return blocks;
    }
    var k;
    blocks', k := TopUp(blocks, data);
    blocks' := Partition(blocks', data[k..]);
    assert data == data[..k] + data[k..];
  }
}
