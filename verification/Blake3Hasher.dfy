/** The streaming BLAKE3 hasher against the tree hash of the whole message. */
module Blake3Hasher {
  import opened Results
  import opened Bits
  import opened BlockBuffer
  import opened Blake3Tree

  /** The compression function: block, chaining value, counter, block length in bytes, flags. */
  type CompressRule = (Bits, Cv, nat, nat, nat) -> Cv

  const CHUNK_START: nat := 1
  const CHUNK_END: nat := 2
  const PARENT: nat := 4
  const ROOT: nat := 8

  /** Block length in bytes. */
  const BLOCK_LEN: nat := 64

  /** Chunk size in bits. */
  const CHUNK_SIZE: nat := 8192

  const MAX_SUBTREE_DEPTH: nat := 54

  function Flag(on: bool, flag: nat): nat {
    if on then flag else 0
  }

  // The definition (section 2.1 of the BLAKE3 specification).

  function ParentOf(compress: CompressRule, iv: Cv): ParentRule {
    (l: Cv, r: Cv, root: bool) => compress(l + r, iv, 0, BLOCK_LEN, PARENT + Flag(root, ROOT))
  }

  /** Number of blocks of a chunk; the empty chunk has one. */
  function BlockCount(len: nat): (n: nat)
    ensures n >= 1 && BLOCK_SIZE * (n - 1) <= len <= BLOCK_SIZE * n
  {
    if len == 0 then 1 else (len + BLOCK_SIZE - 1) / BLOCK_SIZE
  }

  function PaddedChunk(data: Bits): (r: Bits)
    ensures |r| == BLOCK_SIZE * BlockCount(|data|)
  {
    data + Zeros(BLOCK_SIZE * BlockCount(|data|) - |data|)
  }

  /** The chaining value after the first `n` blocks, none of them the last. */
  function ChunkSteps(compress: CompressRule, iv: Cv, padded: Bits, counter: nat, n: nat): Cv
    requires BLOCK_SIZE * n <= |padded|
  {
    if n == 0 then iv
    else compress(padded[BLOCK_SIZE * (n - 1)..BLOCK_SIZE * n], ChunkSteps(compress, iv, padded, counter, n - 1),
                  counter, BLOCK_LEN, Flag(n == 1, CHUNK_START))
  }

  /** Length in bytes of a chunk's last block. */
  function LastLength(len: nat): nat {
    (len - BLOCK_SIZE * (BlockCount(len) - 1) + 7) / 8
  }

  /** The chaining value of a chunk; the root chunk uses counter 0. */
  function ChunkCv(compress: CompressRule, iv: Cv, data: Bits, counter: nat, root: bool): Cv {
    var padded, n := PaddedChunk(data), BlockCount(|data|);
    compress(padded[BLOCK_SIZE * (n - 1)..], ChunkSteps(compress, iv, padded, counter, n - 1),
             if root then 0 else counter, LastLength(|data|), Flag(n == 1, CHUNK_START) + CHUNK_END + Flag(root, ROOT))
  }

  /** Number of chunks of a message; the empty message has one. */
  function ChunkCount(len: nat): (n: nat)
    ensures n >= 1 && CHUNK_SIZE * (n - 1) <= len <= CHUNK_SIZE * n
  {
    if len == 0 then 1 else (len + CHUNK_SIZE - 1) / CHUNK_SIZE
  }

  function ChunkBits(message: Bits, i: nat): Bits
    requires CHUNK_SIZE * i <= |message|
  {
    if CHUNK_SIZE * (i + 1) <= |message| then message[CHUNK_SIZE * i..CHUNK_SIZE * (i + 1)]
      else message[CHUNK_SIZE * i..]
  }

  /** The chaining values of the first `n` chunks. */
  function LeafCvs(compress: CompressRule, iv: Cv, message: Bits, n: nat): (r: seq<Cv>)
    requires n > 0 ==> CHUNK_SIZE * (n - 1) <= |message|
    ensures |r| == n
  {
    seq(n, i requires 0 <= i < n => ChunkCv(compress, iv, ChunkBits(message, i), i, false))
  }

  function TreeHash(compress: CompressRule, iv: Cv, parent: ParentRule, message: Bits): Cv {
    var n := ChunkCount(|message|);
    if n == 1 then ChunkCv(compress, iv, message, 0, true)
    else Root(LeafCvs(compress, iv, message, n), parent)
  }

  /** Complete chunks do not change when the message grows. */
  lemma LeafCvsExtend(compress: CompressRule, iv: Cv, message: Bits, more: Bits, n: nat)
    requires CHUNK_SIZE * n <= |message|
    ensures LeafCvs(compress, iv, message + more, n) == LeafCvs(compress, iv, message, n)
  {
    forall i: nat | i < n ensures ChunkBits(message + more, i) == ChunkBits(message, i) {
    }
  }

  lemma LeafCvsNext(compress: CompressRule, iv: Cv, message: Bits, n: nat)
    requires CHUNK_SIZE * n <= |message|
    ensures LeafCvs(compress, iv, message, n + 1)
        == LeafCvs(compress, iv, message, n) + [ChunkCv(compress, iv, ChunkBits(message, n), n, false)]
  {
  }

  // One chunk.

  /** Buffered bits that fill whole blocks are all in full blocks. */
  lemma AllFull(blocks: seq<Buffered>, n: nat)
    requires BlocksOk(blocks) && |AllBits(blocks)| == BLOCK_SIZE * n
    ensures |blocks| == n && forall i | 0 <= i < n :: blocks[i].len == BLOCK_SIZE
  {
    if blocks != [] {
      FullPrefix(blocks, |blocks| - 1);
    }
  }

  lemma BufferedLength(blocks: seq<Buffered>)
    requires BlocksOk(blocks) && blocks != []
    ensures |AllBits(blocks)| == BLOCK_SIZE * (|blocks| - 1) + blocks[|blocks| - 1].len
    ensures BlockCount(|AllBits(blocks)|) == |blocks|
  {
    FullPrefix(blocks, |blocks| - 1);
  }

  class Chunk {
    const compress: CompressRule
    const iv: Cv
    const counter: nat
    var blocks: seq<Buffered>
    var chainingValue: Cv

    constructor (compress: CompressRule, iv: Cv, counter: nat)
      ensures Valid() && AllBits(blocks) == [] && this.compress == compress && this.iv == iv && this.counter == counter
    {
      this.compress, this.iv, this.counter := compress, iv, counter;
      blocks, chainingValue := [], iv;
    }

    /** The chunk is still collecting data. */
    predicate Valid()
      reads this
    {
      BlocksOk(blocks) && chainingValue == iv
    }

    /** Length in bits. */
    function Len(): (n: nat)
      requires Valid()
      reads this
      ensures n == |AllBits(blocks)|
    {
      if blocks == [] then 0
      else
        BufferedLength(blocks);
        (|blocks| - 1) * BLOCK_SIZE + blocks[|blocks| - 1].len
    }

    method Update(data: Bits)
      requires Valid()
      modifies this
      ensures Valid() && AllBits(blocks) == old(AllBits(blocks)) + data
    {
      blocks := Append(blocks, data);
    }

    /** Pads the last block with zeros. */
    method Pad() returns (lastBytes: nat)
      requires Valid()
      modifies this
      ensures Valid() && AllBits(blocks) == PaddedChunk(old(AllBits(blocks)))
      ensures lastBytes == LastLength(|old(AllBits(blocks))|)
    {
      var lastLen := if blocks == [] then 0 else blocks[|blocks| - 1].len;
      lastBytes := (lastLen + 7) / 8;
      if blocks != [] {
        BufferedLength(blocks);
      }
      ghost var data := AllBits(blocks);
      if lastLen != BLOCK_SIZE {
        Update(Zeros(BLOCK_SIZE - lastLen));
      } else {
        assert PaddedChunk(data) == data;
      }
    }

    /** Compresses the chunk block by block. */
    method Compress(isRoot: bool) returns (cv: Cv)
      requires Valid()
      modifies this
      ensures cv == ChunkCv(compress, iv, old(AllBits(blocks)), counter, isRoot) && blocks == []
    {
      ghost var data := AllBits(blocks);
      ghost var padded, n := PaddedChunk(data), BlockCount(|data|);
      var lastBytes := Pad();
      AllFull(blocks, n);
      var todo := blocks;
      blocks := [];
      cv := CompressBlocks(todo, counter, isRoot, lastBytes, padded);
      chainingValue := cv;
    }

    method CompressBlocks(todo: seq<Buffered>, counter: nat, isRoot: bool, lastBytes: nat, ghost padded: Bits)
      returns (cv: Cv)
      requires BlocksOk(todo) && todo != [] && AllBits(todo) == padded && |padded| == BLOCK_SIZE * |todo|
      requires forall i | 0 <= i < |todo| :: todo[i].len == BLOCK_SIZE
      ensures cv == compress(padded[BLOCK_SIZE * (|todo| - 1)..], ChunkSteps(compress, iv, padded, counter, |todo| - 1),
                             if isRoot then 0 else counter, lastBytes,
                             Flag(|todo| == 1, CHUNK_START) + CHUNK_END + Flag(isRoot, ROOT))
    {
      cv := iv;
      var last := |todo| - 1;
      for i := 0 to last
        invariant cv == ChunkSteps(compress, iv, padded, counter, i)
      {
        BlockSlice(todo, padded, i);
        cv := compress(Joined(todo[i].data), cv, counter, BLOCK_LEN, Flag(i == 0, CHUNK_START));
      }
      BlockSlice(todo, padded, last);
      var flags := Flag(last == 0, CHUNK_START) + CHUNK_END + Flag(isRoot, ROOT);
      cv := compress(Joined(todo[last].data), cv, if isRoot then 0 else counter, lastBytes, flags);
    }
  }

  lemma BlockSlice(blocks: seq<Buffered>, padded: Bits, i: nat)
    requires BlocksOk(blocks) && i < |blocks| && AllBits(blocks) == padded && |padded| == BLOCK_SIZE * |blocks|
    requires forall j | 0 <= j < |blocks| :: blocks[j].len == BLOCK_SIZE
    ensures Joined(blocks[i].data) == padded[BLOCK_SIZE * i..BLOCK_SIZE * (i + 1)]
    ensures i == |blocks| - 1 ==> Joined(blocks[i].data) == padded[BLOCK_SIZE * i..]
  {
    BlocksAround(blocks, i);
    FullPrefix(blocks, i);
  }

  // The hasher.

  datatype TreeError = TooManySubtrees

  /** None of the chunk counts after `lo` up to `hi` needs more subtrees than the stack can hold. */
  predicate FitsStack(lo: nat, hi: nat) {
    forall c: nat | lo < c <= hi :: PopCount(c) <= MAX_SUBTREE_DEPTH
  }

  lemma FitsOnward(lo: nat, mid: nat, hi: nat)
    requires FitsStack(lo, mid) && lo <= mid
    ensures FitsStack(lo, hi) || mid < hi
    ensures mid <= hi ==> (FitsStack(mid, hi) <==> FitsStack(lo, hi))
  {
  }

  /** An even new leaf count means an odd number of nodes: the top of the stack is the new node's left neighbour. */
  lemma MergeStep(nodes: seq<Cv>, cv: Cv, total: nat, parent: ParentRule)
    requires total == |nodes| + 1 && total % 2 == 0
    ensures var s := Stack(nodes, parent);
            && s != [] && s[..|s| - 1] == Stack(Paired(nodes, parent), parent)
              && total / 2 == |Paired(nodes, parent)| + 1
            && Stack(nodes + [cv], parent) == Stack(Paired(nodes, parent) + [parent(s[|s| - 1], cv, false)], parent)
  {
    DivModUnique(|nodes|, 2, total / 2 - 1, 1);
    StackPop(nodes, cv, parent);
  }

  lemma PushStep(nodes: seq<Cv>, cv: Cv, total: nat, parent: ParentRule)
    requires total == |nodes| + 1 && total % 2 == 1
    ensures Stack(nodes + [cv], parent) == Stack(nodes, parent) + [cv]
  {
    DivModUnique(|nodes|, 2, total / 2, 0);
    StackPush(nodes, cv, parent);
  }

  /** Pops a complete left neighbour for every trailing zero of the new chunk count, then pushes. */
  method AddChunk(stack: seq<Cv>, newCv: Cv, totalChunks: nat, parent: ParentRule, ghost leaves: seq<Cv>)
    returns (r: Result<seq<Cv>, TreeError>)
    requires stack == Stack(leaves, parent) && totalChunks == |leaves| + 1 && |stack| <= MAX_SUBTREE_DEPTH
    ensures r.Ok? ==> r.value == Stack(leaves + [newCv], parent) && |r.value| <= MAX_SUBTREE_DEPTH
    ensures r.Ok? <==> PopCount(totalChunks) <= MAX_SUBTREE_DEPTH
  {
    var s, cv, total := stack, newCv, totalChunks;
    ghost var nodes, result := leaves, Stack(leaves + [newCv], parent);
    while total % 2 == 0
      invariant total == |nodes| + 1 && s == Stack(nodes, parent) && |s| <= MAX_SUBTREE_DEPTH
      invariant Stack(nodes + [cv], parent) == result
      decreases total
    {
      MergeStep(nodes, cv, total, parent);
      var left := s[|s| - 1];
      s := s[..|s| - 1];
      cv := parent(left, cv, false);
      total := total / 2;
      nodes := Paired(nodes, parent);
    }
    PushStep(nodes, cv, total, parent);
    StackSize(leaves + [newCv], parent);
    if |s| == MAX_SUBTREE_DEPTH {
      return Err(TooManySubtrees);
    }
    r := Ok(s + [cv]);
  }

  /** Merges the right edge of the tree onto the last chunk's chaining value. */
  method MergeAll(stack: seq<Cv>, last: Cv, parent: ParentRule) returns (out: Cv)
    requires stack != []
    ensures out == Merged(stack, last, parent)
  {
    out := last;
    var remaining := |stack|;
    assert stack[..remaining] == stack;
    while remaining > 1
      invariant 1 <= remaining <= |stack| && Merged(stack[..remaining], out, parent) == Merged(stack, last, parent)
    {
      remaining := remaining - 1;
      assert stack[..remaining + 1][..remaining] == stack[..remaining];
      out := parent(stack[remaining], out, false);
    }
    out := parent(stack[0], out, true);
  }

  /** `bits` is what follows the complete chunks, whose chaining values are in the stack. */
  ghost predicate Represents(compress: CompressRule, iv: Cv, parent: ParentRule, message: Bits, counter: nat,
                             bits: Bits, stack: seq<Cv>) {
    && CHUNK_SIZE * counter <= |message| && bits == message[CHUNK_SIZE * counter..]
    && stack == Stack(LeafCvs(compress, iv, message, counter), parent) && |stack| <= MAX_SUBTREE_DEPTH
  }

  lemma CountAt(len: nat, counter: nat)
    requires CHUNK_SIZE * counter < len <= CHUNK_SIZE * (counter + 1)
    ensures ChunkCount(len) == counter + 1
  {
  }

  lemma FillRepresents(compress: CompressRule, iv: Cv, parent: ParentRule, message: Bits, counter: nat, bits: Bits,
                       stack: seq<Cv>, left: Bits)
    requires Represents(compress, iv, parent, message, counter, bits, stack) && left != []
        && |bits| + |left| <= CHUNK_SIZE
    ensures Represents(compress, iv, parent, message + left, counter, bits + left, stack)
        && counter == ChunkCount(|message + left|) - 1
  {
    LeafCvsExtend(compress, iv, message, left, counter);
    CountAt(|message + left|, counter);
  }

  /** A finished chunk moves from the buffer to the stack. */
  lemma FinishRepresents(compress: CompressRule, iv: Cv, parent: ParentRule, message: Bits, counter: nat, bits: Bits,
                         stack: seq<Cv>, stack': seq<Cv>)
    requires Represents(compress, iv, parent, message, counter, bits, stack) && |bits| == CHUNK_SIZE
        && |stack'| <= MAX_SUBTREE_DEPTH
    requires stack' == Stack(LeafCvs(compress, iv, message, counter) + [ChunkCv(compress, iv, bits, counter, false)],
                             parent)
    ensures Represents(compress, iv, parent, message, counter + 1, [], stack')
  {
    assert ChunkBits(message, counter) == bits;
    LeafCvsNext(compress, iv, message, counter);
  }

  class Blake3 {
    const compress: CompressRule
    const iv: Cv
    const parent: ParentRule
    var chunk: Chunk
    var cvStack: seq<Cv>
    /** Everything hashed so far. */
    ghost var message: Bits

    /** The chunk holds the unfinished end of the message, the stack the complete chunks before it. */
    ghost predicate Valid()
      reads this, chunk
    {
      && chunk.Valid() && chunk.compress == compress && chunk.iv == iv
      && chunk.counter == ChunkCount(|message|) - 1
      && Represents(compress, iv, parent, message, chunk.counter, AllBits(chunk.blocks), cvStack)
    }

    constructor (compress: CompressRule, iv: Cv)
      ensures Valid() && message == [] && fresh(chunk) && this.compress == compress && this.iv == iv
          && parent == ParentOf(compress, iv)
    {
      this.compress, this.iv, parent := compress, iv, ParentOf(compress, iv);
      chunk := new Chunk(compress, iv, 0);
      cvStack, message := [], [];
    }

    /** Finishes a full chunk when more data is coming. */
    method FinishChunk() returns (r: Result<(), TreeError>)
      requires Valid() && |AllBits(chunk.blocks)| == CHUNK_SIZE
      modifies this, chunk
      ensures r.Ok? ==> message == old(message) && chunk.counter == old(chunk.counter) + 1
      ensures r.Ok? <==> PopCount(old(chunk.counter) + 1) <= MAX_SUBTREE_DEPTH
      ensures r.Ok? ==> fresh(chunk) && Ready()
      ensures chunk == old(chunk) || fresh(chunk)
    {
      ghost var leaves := LeafCvs(compress, iv, message, chunk.counter);
      ghost var bits := AllBits(chunk.blocks);
      var cv := chunk.Compress(false);
      var total := chunk.counter + 1;
      var s := AddChunk(cvStack, cv, total, parent, leaves);
      if s.Err? {
        return Err(s.error);
      }
      FinishRepresents(compress, iv, parent, message, total - 1, bits, cvStack, s.value);
      cvStack := s.value;
      chunk := new Chunk(compress, iv, total);
      r := Ok(());
    }

    /** As `Valid`, when the current chunk is new and data for it is at hand. */
    ghost predicate Ready()
      reads this, chunk
    {
      && chunk.Valid() && chunk.compress == compress && chunk.iv == iv
      && |AllBits(chunk.blocks)| < CHUNK_SIZE
      && Represents(compress, iv, parent, message, chunk.counter, AllBits(chunk.blocks), cvStack)
    }

    /** Adds data that fits the current chunk. */
    method Fill(left: Bits)
      requires Ready() && left != [] && |AllBits(chunk.blocks)| + |left| <= CHUNK_SIZE
      modifies this, chunk
      ensures Valid() && chunk == old(chunk) && message == old(message) + left
    {
      FillRepresents(compress, iv, parent, message, chunk.counter, AllBits(chunk.blocks), cvStack, left);
      chunk.Update(left);
      message := message + left;
    }

    /** Makes room in the current chunk for more data. */
    method MakeRoom() returns (r: Result<(), TreeError>)
      requires Valid()
      modifies this, chunk
      ensures chunk == old(chunk) || fresh(chunk)
      ensures r.Ok? ==> Ready() && message == old(message)
      ensures r.Ok?
          ==> chunk.counter == old(chunk.counter) + if old(|AllBits(chunk.blocks)|) == CHUNK_SIZE then 1 else 0
      ensures r.Ok?
          <==> old(|AllBits(chunk.blocks)|) != CHUNK_SIZE || PopCount(old(chunk.counter) + 1) <= MAX_SUBTREE_DEPTH
    {
      if chunk.Len() == CHUNK_SIZE {
        r := FinishChunk();
      } else {
        r := Ok(());
      }
    }

    /** Takes as much data as the current chunk has room for, finishing a full chunk first. */
    method Absorb(rest: Bits) returns (r: Result<nat, TreeError>)
      requires Valid() && rest != []
      modifies this, chunk
      ensures chunk == old(chunk) || fresh(chunk)
      ensures r.Ok? ==> Valid() && 0 < r.value <= |rest| && message == old(message) + rest[..r.value]
      ensures r.Ok? ==> old(chunk.counter) <= chunk.counter && FitsStack(old(chunk.counter), chunk.counter)
      ensures r.Err? ==> !FitsStack(old(chunk.counter), ChunkCount(|old(message)| + |rest|) - 1)
    {
      ghost var c := chunk.counter;
      MoreChunks(|message|, |rest|, |AllBits(chunk.blocks)|, c);
      var room := MakeRoom();
      if room.Err? {
        assert PopCount(c + 1) > MAX_SUBTREE_DEPTH;
        return Err(room.error);
      }
      var diff := CHUNK_SIZE - chunk.Len();
      var n := if diff <= |rest| then diff else |rest|;
      Fill(rest[..n]);
      r := Ok(n);
    }

    /** Absorbs the next part of `data`, of which `k` bits are in. */
    method AbsorbNext(rest: Bits, ghost data: Bits, ghost k: nat, ghost start: Bits, ghost first: nat)
      returns (r: Result<nat, TreeError>)
      requires Valid() && k < |data| && rest == data[k..] && message == start + data[..k]
      requires first <= chunk.counter && FitsStack(first, chunk.counter)
      modifies this, chunk
      ensures chunk == old(chunk) || fresh(chunk)
      ensures r.Ok? ==> Valid() && 0 < r.value <= |rest| && first <= chunk.counter && FitsStack(first, chunk.counter)
      ensures r.Ok? ==> message == start + data[..k + r.value] && rest[r.value..] == data[k + r.value..]
      ensures r.Err? ==> !FitsStack(first, ChunkCount(|start| + |data|) - 1)
    {
      ghost var before := chunk.counter;
      MoreChunksOnly(|message|, |rest|);
      FitsOnward(first, before, ChunkCount(|message| + |rest|) - 1);
      r := Absorb(rest);
      if r.Ok? {
        FitsOnward(first, before, chunk.counter);
        PrefixStep(data, k, r.value);
        ConcatAssociates(start, data[..k], rest[..r.value]);
      }
    }

    /** Adds data to the hash, chunk by chunk. */
    method Update(data: Bits) returns (r: Result<(), TreeError>)
      requires Valid()
      modifies this, chunk
      ensures r.Ok? ==> Valid() && message == old(message) + data && (chunk == old(chunk) || fresh(chunk))
      ensures r.Ok? <==> FitsStack(ChunkCount(|old(message)|) - 1, ChunkCount(|old(message)| + |data|) - 1)
    {
      var rest := data;
      ghost var k: nat, first, start := 0, chunk.counter, message;
      assert message == message + data[..0];
      while |rest| > 0
        invariant k <= |data| && rest == data[k..] && Valid() && message == start + data[..k]
        invariant chunk == old(chunk) || fresh(chunk)
        invariant first <= chunk.counter && FitsStack(first, chunk.counter)
        decreases |rest|
      {
        var n := AbsorbNext(rest, data, k, start, first);
        if n.Err? {
          return Err(n.error);
        }
        rest := rest[n.value..];
        k := k + n.value;
      }
      assert data[..k] == data;
      r := Ok(());
    }

    /** The digest of everything hashed: the tree hash of the whole message. */
    method Finalize<D>(serialize: Cv -> D) returns (digest: D)
      requires Valid()
      modifies this, chunk
      ensures digest == serialize(TreeHash(compress, iv, parent, old(message)))
    {
      ghost var counter, bits := chunk.counter, AllBits(chunk.blocks);
      ghost var leaves := LeafCvs(compress, iv, message, counter);
      StackSize(leaves, parent);
      var out;
      if |cvStack| == 0 {
        NoLeaves(leaves, parent);
        assert message[0..] == message;
        out := chunk.Compress(true);
      } else {
        out := chunk.Compress(false);
        assert bits == ChunkBits(message, counter);
        LeafCvsNext(compress, iv, message, counter);
        MergedIsRoot(leaves, out, parent);
        out := MergeAll(cvStack, out, parent);
      }
      digest := serialize(out);
    }
  }

  lemma NoLeaves(leaves: seq<Cv>, parent: ParentRule)
    requires Stack(leaves, parent) == []
    ensures leaves == []
  {
    if leaves != [] {
      StackNonempty(leaves, parent);
    }
  }

  lemma MoreChunksOnly(len: nat, more: nat)
    ensures ChunkCount(len) <= ChunkCount(len + more)
  {
  }

  /** A full chunk followed by more data is not the last one. */
  lemma MoreChunks(len: nat, more: nat, bits: nat, counter: nat)
    requires more > 0 && bits == len - CHUNK_SIZE * counter && counter == ChunkCount(len) - 1
    ensures ChunkCount(len + more) - 1 >= counter + if bits == CHUNK_SIZE then 1 else 0
  {
  }
}
