/** What the hasher feeds its compression function: constants, flag words, and one compression through the circuit. */
module Blake3Standard {
  import opened Bits
  import opened Circuits
  import opened Builder
  import opened Blake3Circuit
  import opened Blake3Published
  import opened Blake3Tree
  import opened BlockBuffer
  import opened Blake3Hasher

  // Flag words (section 2.1 of the BLAKE3 specification).

  /** A block of a chunk, which may be its first, its last, and the root; or a parent node. */
  datatype Node = ChunkBlock(first: bool, last: bool, root: bool) | ParentNode(root: bool)

  function PublishedFlags(n: Node): nat {
    match n
    case ChunkBlock(first, last, root) =>
      (if first then 1 else 0) + (if last then 2 else 0) + (if root then 8 else 0)
    case ParentNode(root) => if root then 12 else 4
  }

  /** Different kinds of node are compressed under different flag words. */
  lemma FlagsDistinct(n: Node, n': Node)
    ensures PublishedFlags(n) == PublishedFlags(n') <==> n == n'
  {
  }

  /** A parent is compressed as one whole block under the flags of its kind, from the initial chaining value. */
  lemma ParentFlags(compress: CompressRule, iv: Cv, l: Cv, r: Cv, root: bool)
    ensures ParentOf(compress, iv)(l, r, root) == compress(l + r, iv, 0, 64, PublishedFlags(ParentNode(root)))
  {
  }

  /** The blocks of a chunk are chained under the flags of their kinds: the last one with its own length in bytes, and
      with counter 0 at the root. */
  lemma ChunkFlags(compress: CompressRule, iv: Cv, data: Bits, counter: nat, root: bool, n: nat)
    requires n < BlockCount(|data|)
    ensures BLOCK_SIZE == 512 && |PaddedChunk(data)| == 512 * BlockCount(|data|)
    ensures n == 0 ==> ChunkSteps(compress, iv, PaddedChunk(data), counter, n) == iv
    ensures n < BlockCount(|data|) - 1 ==>
      var padded := PaddedChunk(data);
      var flags := PublishedFlags(ChunkBlock(n == 0, false, false));
      ChunkSteps(compress, iv, padded, counter, n + 1)
        == compress(padded[512 * n..512 * (n + 1)], ChunkSteps(compress, iv, padded, counter, n), counter, 64, flags)
    ensures n == BlockCount(|data|) - 1 ==>
      var padded := PaddedChunk(data);
      var flags := PublishedFlags(ChunkBlock(n == 0, true, root));
      ChunkCv(compress, iv, data, counter, root)
        == compress(padded[512 * n..], ChunkSteps(compress, iv, padded, counter, n), if root then 0 else counter,
                    (|data| - 512 * n + 7) / 8, flags)
  {
  }

  /** Chunks of 1024 bytes in blocks of 64. */
  lemma Sizes(len: nat)
    ensures BLOCK_SIZE == 8 * 64 && CHUNK_SIZE == 8 * 1024
    ensures BlockCount(len) == (if len == 0 then 1 else (len + 511) / 512)
        && ChunkCount(len) == (if len == 0 then 1 else (len + 8191) / 8192)
  {
  }

  // The stack limit.

  lemma {:induction false} PopCountBound(c: nat, n: nat)
    requires c < Pow2(n)
    ensures PopCount(c) <= n && (PopCount(c) == n <==> c == Pow2(n) - 1)
  {
    if n > 0 && c > 0 {
      PopCountBound(c / 2, n - 1);
    }
  }

  /** No message of up to 2^55 - 2 complete chunks, let alone of 2^64 bytes (2^54 chunks), exceeds the stack of 54
      subtrees; one more complete chunk does. */
  lemma StackSuffices(lo: nat, hi: nat)
    ensures hi < Pow2(55) - 1 ==> FitsStack(lo, hi)
    ensures hi <= Pow2(54) ==> FitsStack(lo, hi)
    ensures lo < Pow2(55) - 1 <= hi ==> !FitsStack(lo, hi)
  {
    var n := 55;
    assert Pow2(n) == 2 * Pow2(n - 1) && Pow2(n - 1) == 2 * Pow2(n - 2);
    forall c: nat | lo < c <= hi && hi < Pow2(n) - 1 ensures PopCount(c) <= MAX_SUBTREE_DEPTH {
      PopCountBound(c, n);
    }
    PopCountBound(Pow2(n) - 1, n);
  }

  // The state of one compression.

  /** The initial chaining value, as words. */
  function InitialVector(): (r: seq<nat>)
    ensures |r| == 8
  {
    [0x6A09E667, 0xBB67AE85, 0x3C6EF372, 0xA54FF53A, 0x510E527F, 0x9B05688C, 0x1F83D9AB, 0x5BE0CD19]
  }

  /** Word `i` holds the first 32 fractional bits of the square root of the `i`-th prime. */
  lemma InitialVectorIsRoots(i: nat)
    requires i < 8
    ensures var p, r := [2, 3, 5, 7, 11, 13, 17, 19][i], [1, 1, 2, 2, 3, 3, 4, 4][i];
            var x := r * 0x1_0000_0000 + InitialVector()[i];
            x * x < p * 0x1_0000_0000_0000_0000 < (x + 1) * (x + 1) && InitialVector()[i] < 0x1_0000_0000
  {
  }

  /** A bit string as 32-bit words. */
  function WordsOf(bits: Bits, n: nat): (r: seq<Bits>)
    requires 32 * n <= |bits|
    ensures |r| == n && forall i | 0 <= i < n :: |r[i]| == 32 && r[i] == bits[32 * i..32 * i + 32]
  {
    seq(n, i requires 0 <= i < n => bits[32 * i..32 * i + 32])
  }

  /** Numbers as words of the given width. */
  function NumberWords(numbers: seq<nat>, width: nat): (r: seq<Bits>)
    ensures |r| == |numbers| && forall i | 0 <= i < |r| :: |r[i]| == width && r[i] == FromNat(numbers[i], width)
  {
    seq(|numbers|, i requires 0 <= i < |numbers| => FromNat(numbers[i], width))
  }

  /** What follows the chaining value: half of the initial vector, the low and high half of the counter, the block
      length and the flags. */
  function StateNumbers(counter: nat, len: nat, flags: nat): (r: seq<nat>)
    ensures |r| == 8
  {
    InitialVector()[..4] + [counter, counter / 0x1_0000_0000, len, flags]
  }

  function StateOf(cv: Cv, counter: nat, len: nat, flags: nat): (r: seq<Bits>)
    requires |cv| == 256
    ensures Words16(r)
  {
    WordsOf(cv, 8) + NumberWords(StateNumbers(counter, len, flags), 32)
  }

  lemma WordRange()
    ensures Pow2(32) == 0x1_0000_0000
  {
    assert Pow2(8) == 256;
    assert Pow2(16) == 0x1_0000;
    assert Pow2(24) == 0x100_0000;
  }

  lemma NumberWordValues(numbers: seq<nat>, i: nat, width: nat)
    requires i < |numbers|
    ensures Value(NumberWords(numbers, width)[i]) == numbers[i] % Pow2(width)
  {
    ValueFromNat(numbers[i], width);
  }

  lemma StateParts(head: seq<Bits>, numbers: seq<nat>, s: seq<Bits>)
    requires |head| == |numbers| == 8 && s == head + NumberWords(numbers, 32)
    ensures forall i | 0 <= i < 8 :: s[i] == head[i] && Value(s[8 + i]) == numbers[i] % 0x1_0000_0000
  {
    WordRange();
    forall i | 0 <= i < 8 ensures Value(s[8 + i]) == numbers[i] % 0x1_0000_0000 {
      NumberWordValues(numbers, i, 32);
    }
  }

  lemma VectorWords(i: nat)
    requires i < 8
    ensures InitialVector()[i] < 0x1_0000_0000
  {
  }

  /** Words 0 to 7 are the chaining value, 8 to 11 the first half of the initial vector, 12 and 13 the low and high half
      of the counter, 14 the block length and 15 the flags. */
  lemma StateLayout(cv: Cv, counter: nat, len: nat, flags: nat, s: seq<Bits>)
    requires |cv| == 256 && s == StateOf(cv, counter, len, flags)
    requires counter < 0x1_0000_0000_0000_0000 && len < 0x1_0000_0000 && flags < 0x1_0000_0000
    ensures forall i | 0 <= i < 8 :: s[i] == cv[32 * i..32 * i + 32]
    ensures forall i | 0 <= i < 4 :: Value(s[8 + i]) == InitialVector()[i]
    ensures Value(s[12]) + 0x1_0000_0000 * Value(s[13]) == counter && Value(s[14]) == len && Value(s[15]) == flags
  {
    var numbers := StateNumbers(counter, len, flags);
    StateParts(WordsOf(cv, 8), numbers, s);
    NumbersInRange(counter, len, flags, numbers);
    assert Value(s[8 + 4]) == numbers[4] % 0x1_0000_0000 && Value(s[8 + 5]) == numbers[5] % 0x1_0000_0000;
    assert Value(s[8 + 6]) == numbers[6] % 0x1_0000_0000 && Value(s[8 + 7]) == numbers[7] % 0x1_0000_0000;
  }

  lemma NumbersInRange(counter: nat, len: nat, flags: nat, numbers: seq<nat>)
    requires counter < 0x1_0000_0000_0000_0000 && len < 0x1_0000_0000 && flags < 0x1_0000_0000
    requires numbers == StateNumbers(counter, len, flags)
    ensures forall i | 0 <= i < 4 :: numbers[i] % 0x1_0000_0000 == InitialVector()[i]
    ensures numbers[4] % 0x1_0000_0000 + 0x1_0000_0000 * (numbers[5] % 0x1_0000_0000) == counter
    ensures numbers[6] % 0x1_0000_0000 == len && numbers[7] % 0x1_0000_0000 == flags
  {
    forall i | 0 <= i < 4 ensures numbers[i] % 0x1_0000_0000 == InitialVector()[i] {
      VectorWords(i);
    }
  }

  /** BLAKE3's compression, truncated to a chaining value. */
  function Compressed(block: Bits, cv: Cv, counter: nat, len: nat, flags: nat): (r: Cv)
    requires |block| == 512 && |cv| == 256
    ensures |r| == 256
  {
    Flatten(Output(WordsOf(block, 16), StateOf(cv, counter, len, flags)))[..256]
  }

  function InitialCv(): (r: Cv)
    ensures |r| == 256
  {
    Flatten(NumberWords(InitialVector(), 32))
  }

  /** The circuit computes the compression function on every message and state. */
  ghost predicate IsCompressCircuit(c: Circuit) {
    && c.WellFormed() && c.inputs == 1024 && c.outputs == 512
    && forall bits: seq<bool> | |bits| == 1024 ::
      Yields(c, bits, Flatten(CompressWords(CompressInput(bits, 0), CompressInput(bits, 512))))
  }

  lemma InputIsWords(block: Bits, state: seq<Bits>, input: Bits)
    requires |block| == 512 && Words16(state) && input == block + Flatten(state)
    ensures |input| == 1024 && CompressInput(input, 0) == WordsOf(block, 16) && CompressInput(input, 512) == state
  {
    forall i | 0 <= i < 16 ensures CompressInput(input, 0)[i] == WordsOf(block, 16)[i] {
    }
    forall i | 0 <= i < 16 ensures CompressInput(input, 512)[i] == state[i] {
      forall j | 0 <= j < 32 ensures CompressInput(input, 512)[i][j] == state[i][j] {
        FlattenAt(state, 32 * i + j);
        DivModUnique(32 * i + j, 32, i, j);
      }
    }
  }

  /** All valuations that solve the circuit give its one output. */
  lemma CircuitOutput(c: Circuit, input: Bits, out: Bits, expected: Bits)
    requires c.WellFormed() && |input| >= c.inputs && Yields(c, input, expected)
    requires forall w: nat -> bool :: c.Solves(input, w) ==> out == c.OutputsOf(w)
    ensures out == expected
  {
    var w: nat -> bool :| c.Solves(input, w) && c.OutputsOf(w) == expected;
  }

  /** One compression through the circuit: the published compression of the block, with the state assembled from the
      chaining value, the initial vector, the counter, the block length and the flags. */
  method CompressBlock(c: Circuit, block: Bits, cv: Cv, counter: nat, len: nat, flags: nat) returns (out: Cv)
    requires IsCompressCircuit(c) && |block| == 512 && |cv| == 256
    ensures out == Compressed(block, cv, counter, len, flags)
  {
    out := CompressState(c, block, StateOf(cv, counter, len, flags));
  }

  method CompressState(c: Circuit, block: Bits, state: seq<Bits>) returns (out: Cv)
    requires IsCompressCircuit(c) && |block| == 512 && Words16(state)
    ensures out == Flatten(Output(WordsOf(block, 16), state))[..256]
  {
    var input := block + Flatten(state);
    InputIsWords(block, state, input);
    var r := Evaluate(c, input);
    CircuitOutput(c, input, r.value, Flatten(CompressWords(WordsOf(block, 16), state)));
    CompressionIsPublished(WordsOf(block, 16), state);
    out := r.value[..256];
  }
}
