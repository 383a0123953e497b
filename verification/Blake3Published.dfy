/** BLAKE3's compression function as published, as a reference for the word-level form, the circuit and the hasher. */
module Blake3Published {
  import opened Bits
  import opened Circuits
  import opened Builder
  import opened Blake3Circuit

  // The message schedule (section 2.2 of the BLAKE3 specification, written out).

  /** Which message word each of the sixteen half mixes of round `n` takes. */
  function MessageRow(n: nat): (row: seq<nat>)
    requires n < 7
    ensures |row| == 16
  {
    match n
    case 0 => [0, 1, 2, 3, 4, 5, 6, 7, 8, 9, 10, 11, 12, 13, 14, 15]
    case 1 => [2, 6, 3, 10, 7, 0, 4, 13, 1, 11, 12, 5, 9, 14, 15, 8]
    case 2 => [3, 4, 10, 12, 13, 2, 7, 14, 6, 5, 9, 0, 11, 15, 8, 1]
    case 3 => [10, 7, 12, 9, 14, 3, 13, 15, 4, 0, 11, 2, 5, 8, 1, 6]
    case 4 => [12, 13, 9, 11, 15, 10, 14, 8, 7, 2, 5, 3, 0, 1, 6, 4]
    case 5 => [9, 14, 11, 5, 8, 12, 15, 1, 13, 3, 0, 10, 2, 6, 4, 7]
    case _ => [11, 15, 5, 0, 1, 9, 8, 6, 14, 10, 2, 12, 3, 4, 7, 13]
  }

  predicate Indices(row: seq<nat>) {
    |row| == 16 && forall i | 0 <= i < 16 :: row[i] < 16
  }

  /** The words of `m` in the order of `row`. */
  function Selected(m: seq<Bits>, row: seq<nat>): (r: seq<Bits>)
    requires |m| == 16 && Indices(row)
    ensures |r| == 16 && forall i | 0 <= i < 16 :: r[i] == m[row[i]]
  {
    seq(16, i requires 0 <= i < 16 => m[row[i]])
  }

  lemma NextRow(n: nat)
    requires n < 6
    ensures MessageRow(n + 1) == Permute(MessageRow(n))
  {
  }

  lemma SelectedPermuted(m: seq<Bits>, row: seq<nat>)
    requires |m| == 16 && Indices(row)
    ensures Indices(Permute(row)) && Selected(m, Permute(row)) == Permute(Selected(m, row))
  {
  }

  /** Permuting the message after every round gives the published schedule. */
  lemma {:induction false} ScheduleIsPublished(m: seq<Bits>, n: nat)
    requires Words16(m) && n < 7
    ensures Indices(MessageRow(n)) && Schedule(m, n) == Selected(m, MessageRow(n))
  {
    if n == 0 {
      assert MessageRow(0) == [0, 1, 2, 3, 4, 5, 6, 7, 8, 9, 10, 11, 12, 13, 14, 15];
    } else {
      ScheduleIsPublished(m, n - 1);
      NextRow(n - 1);
      SelectedPermuted(m, MessageRow(n - 1));
    }
  }

  /** `v` stands in `row` at position `i` and nowhere else. */
  predicate OnlyAt(row: seq<nat>, v: nat, i: nat) {
    i < |row| && forall j | 0 <= j < |row| :: row[j] == v <==> j == i
  }

  /** Where the permutation puts word `i`. */
  function Destination(i: nat): (j: nat)
    requires i < 16
    ensures j < 16
  {
    [5, 8, 0, 2, 6, 11, 1, 4, 15, 12, 3, 9, 10, 7, 13, 14][i]
  }

  lemma PermutedOnlyAt(row: seq<nat>, v: nat, i: nat)
    requires |row| == 16 && OnlyAt(row, v, i)
    ensures OnlyAt(Permute(row), v, Destination(i))
  {
  }

  /** Each round reads each message word exactly once. */
  lemma {:induction false} RoundReadsEachWord(n: nat, v: nat) returns (i: nat)
    requires n < 7 && v < 16
    ensures OnlyAt(MessageRow(n), v, i)
  {
    if n == 0 {
      i := v;
    } else {
      var before := RoundReadsEachWord(n - 1, v);
      NextRow(n - 1);
      PermutedOnlyAt(MessageRow(n - 1), v, before);
      i := Destination(before);
    }
  }

  // The round function.

  /** The sum of words modulo 2^32. */
  function Plus(a: Bits, b: Bits): (r: Bits)
    ensures |r| == 32
  {
    FromNat((Value(a) + Value(b)) % Pow2(32), 32)
  }

  /** Half a quarter round on the words at `a`, `b`, `c` and `d`, line by line. */
  function HalfRound(v: seq<Bits>, a: nat, b: nat, c: nat, d: nat, x: Bits, r: nat, s: nat): (w: seq<Bits>)
    requires Words16(v) && a < 16 && b < 16 && c < 16 && d < 16 && |x| == 32 && r <= 32 && s <= 32
    ensures Words16(w)
  {
    var v1 := v[a := Plus(Plus(v[a], v[b]), x)];
    var v2 := v1[d := RotateRight(Xor(v1[d], v1[a]), r)];
    var v3 := v2[c := Plus(v2[c], v2[d])];
    v3[b := RotateRight(Xor(v3[b], v3[c]), s)]
  }

  function QuarterRound(v: seq<Bits>, a: nat, b: nat, c: nat, d: nat, x: Bits, y: Bits): (w: seq<Bits>)
    requires Words16(v) && a < 16 && b < 16 && c < 16 && d < 16 && |x| == |y| == 32
    ensures Words16(w)
  {
    HalfRound(HalfRound(v, a, b, c, d, x, 16, 12), a, b, c, d, y, 8, 7)
  }

  /** The first `n` of the four columns. */
  function Columns(v: seq<Bits>, m: seq<Bits>, n: nat): (w: seq<Bits>)
    requires Words16(v) && Words16(m) && n <= 4
    ensures Words16(w)
  {
    if n == 0 then v
    else
      var i := n - 1;
      QuarterRound(Columns(v, m, i), i, i + 4, i + 8, i + 12, m[2 * i], m[2 * i + 1])
  }

  /** The first `n` of the four diagonals: each row of the state is turned by its number. */
  function Diagonals(v: seq<Bits>, m: seq<Bits>, n: nat): (w: seq<Bits>)
    requires Words16(v) && Words16(m) && n <= 4
    ensures Words16(w)
  {
    if n == 0 then v
    else
      var i := n - 1;
      QuarterRound(Diagonals(v, m, i), i, 4 + (i + 1) % 4, 8 + (i + 2) % 4, 12 + (i + 3) % 4, m[8 + 2 * i],
                   m[9 + 2 * i])
  }

  function Round(v: seq<Bits>, m: seq<Bits>): (w: seq<Bits>)
    requires Words16(v) && Words16(m)
    ensures Words16(w)
  {
    Diagonals(Columns(v, m, 4), m, 4)
  }

  lemma SelectedWords(m: seq<Bits>, n: nat)
    requires Words16(m) && n < 7
    ensures Indices(MessageRow(n)) && Words16(Selected(m, MessageRow(n)))
  {
    ScheduleIsPublished(m, n);
  }

  /** The state after `n` of the seven rounds, each with its own row of the schedule. */
  function RoundsOf(v: seq<Bits>, m: seq<Bits>, n: nat): (w: seq<Bits>)
    requires Words16(v) && Words16(m) && n <= 7
    ensures Words16(w)
  {
    if n == 0 then v
    else
      SelectedWords(m, n - 1);
      Round(RoundsOf(v, m, n - 1), Selected(m, MessageRow(n - 1)))
  }

  /** The sixteen output words for message `m` and state `v`. */
  function Output(m: seq<Bits>, v: seq<Bits>): (w: seq<Bits>)
    requires Words16(m) && Words16(v)
    ensures Words16(w)
  {
    var t := RoundsOf(v, m, 7);
    seq(8, i requires 0 <= i < 8 => Xor(t[i], t[8 + i])) + seq(8, i requires 0 <= i < 8 => Xor(t[8 + i], v[i]))
  }

  // The repository's form is the published one.

  lemma PlusIsAdd(a: Bits, b: Bits)
    requires |a| == 32
    ensures Plus(a, b) == AddWords(a, b)
  {
    AddWordsValue(a, b);
    FromNatValue(AddWords(a, b));
  }

  lemma HalfRoundIsHalfMix(v: seq<Bits>, p: Quad<nat>, x: Bits, r: nat, s: nat)
    requires Words16(v) && Positions(p) && |x| == 32 && r <= 32 && s <= 32
    ensures var q := HalfMix(Quad(v[p.a], v[p.b], v[p.c], v[p.d]), x, r, s);
            HalfRound(v, p.a, p.b, p.c, p.d, x, r, s) == v[p.a := q.a][p.b := q.b][p.c := q.c][p.d := q.d]
  {
    PlusIsAdd(v[p.a], v[p.b]);
    PlusIsAdd(AddWords(v[p.a], v[p.b]), x);
    var a := AddWords(AddWords(v[p.a], v[p.b]), x);
    var d := RotateRight(Xor(v[p.d], a), r);
    PlusIsAdd(v[p.c], d);
    SameUpdates(v, p, a, RotateRight(Xor(v[p.b], AddWords(v[p.c], d)), s), AddWords(v[p.c], d), d);
  }

  /** Updates of different words commute. */
  lemma SameUpdates(v: seq<Bits>, p: Quad<nat>, a: Bits, b: Bits, c: Bits, d: Bits)
    requires |v| == 16 && Positions(p)
    ensures v[p.a := a][p.d := d][p.c := c][p.b := b] == v[p.a := a][p.b := b][p.c := c][p.d := d]
  {
  }

  lemma QuarterRoundIsMix(v: seq<Bits>, m: seq<Bits>, p: Quad<nat>, x: nat, y: nat)
    requires Words16(v) && Words16(m) && Positions(p) && x < 16 && y < 16
    ensures MixWords(v, m, p, x, y) == QuarterRound(v, p.a, p.b, p.c, p.d, m[x], m[y])
  {
    var q := HalfMix(Quad(v[p.a], v[p.b], v[p.c], v[p.d]), m[x], 16, 12);
    var v1 := v[p.a := q.a][p.b := q.b][p.c := q.c][p.d := q.d];
    HalfRoundIsHalfMix(v, p, m[x], 16, 12);
    HalfRoundIsHalfMix(v1, p, m[y], 8, 7);
    assert Quad(v1[p.a], v1[p.b], v1[p.c], v1[p.d]) == q;
    SameWrites(v, p, q, HalfMix(q, m[y], 8, 7));
  }

  lemma SameWrites(v: seq<Bits>, p: Quad<nat>, q: Quad<Bits>, q': Quad<Bits>)
    requires |v| == 16 && Positions(p)
    ensures v[p.a := q.a][p.b := q.b][p.c := q.c][p.d := q.d][p.a := q'.a][p.b := q'.b][p.c := q'.c][p.d := q'.d]
         == v[p.a := q'.a][p.b := q'.b][p.c := q'.c][p.d := q'.d]
  {
  }

  function ColumnStep(i: nat): MixStep {
    MixStep(Quad(i, i + 4, i + 8, i + 12), 2 * i, 2 * i + 1)
  }

  function DiagonalStep(i: nat): MixStep {
    MixStep(Quad(i, 4 + (i + 1) % 4, 8 + (i + 2) % 4, 12 + (i + 3) % 4), 8 + 2 * i, 9 + 2 * i)
  }

  /** Four columns, then four diagonals, with the message words in order. */
  predicate ColumnsThenDiagonals(steps: seq<MixStep>) {
    |steps| == 8 && forall i | 0 <= i < 4 :: steps[i] == ColumnStep(i) && steps[4 + i] == DiagonalStep(i)
  }

  lemma RoundStepsPublished()
    ensures ColumnsThenDiagonals(RoundSteps())
  {
  }

  lemma MixNext(v: seq<Bits>, m: seq<Bits>, steps: seq<MixStep>, n: nat, t: MixStep)
    requires Words16(v) && Words16(m) && StepsOk(steps) && n < |steps| && t == steps[n]
    ensures MixAll(v, m, steps[..n + 1])
         == QuarterRound(MixAll(v, m, steps[..n]), t.p.a, t.p.b, t.p.c, t.p.d, m[t.x], m[t.y])
  {
    assert steps[..n + 1][..n] == steps[..n];
    QuarterRoundIsMix(MixAll(v, m, steps[..n]), m, t.p, t.x, t.y);
  }

  lemma ColumnNext(v: seq<Bits>, m: seq<Bits>, i: nat, t: MixStep)
    requires Words16(v) && Words16(m) && i < 4 && t == ColumnStep(i)
    ensures Columns(v, m, i + 1) == QuarterRound(Columns(v, m, i), t.p.a, t.p.b, t.p.c, t.p.d, m[t.x], m[t.y])
  {
  }

  lemma DiagonalNext(v: seq<Bits>, m: seq<Bits>, i: nat, t: MixStep)
    requires Words16(v) && Words16(m) && i < 4 && t == DiagonalStep(i)
    ensures Diagonals(v, m, i + 1) == QuarterRound(Diagonals(v, m, i), t.p.a, t.p.b, t.p.c, t.p.d, m[t.x], m[t.y])
  {
  }

  lemma {:induction false} ColumnsAreSteps(v: seq<Bits>, m: seq<Bits>, steps: seq<MixStep>, n: nat)
    requires Words16(v) && Words16(m) && StepsOk(steps) && ColumnsThenDiagonals(steps) && n <= 4
    ensures MixAll(v, m, steps[..n]) == Columns(v, m, n)
  {
    if n > 0 {
      var t := steps[n - 1];
      ColumnsAreSteps(v, m, steps, n - 1);
      MixNext(v, m, steps, n - 1, t);
      ColumnNext(v, m, n - 1, t);
    }
  }

  lemma {:induction false} DiagonalsAreSteps(v: seq<Bits>, m: seq<Bits>, steps: seq<MixStep>, n: nat)
    requires Words16(v) && Words16(m) && StepsOk(steps) && ColumnsThenDiagonals(steps) && n <= 4
    ensures MixAll(v, m, steps[..4 + n]) == Diagonals(Columns(v, m, 4), m, n)
  {
    if n == 0 {
      ColumnsAreSteps(v, m, steps, 4);
    } else {
      var t := steps[4 + (n - 1)];
      DiagonalsAreSteps(v, m, steps, n - 1);
      MixNext(v, m, steps, 4 + (n - 1), t);
      DiagonalNext(Columns(v, m, 4), m, n - 1, t);
    }
  }

  lemma RoundIsPublished(v: seq<Bits>, m: seq<Bits>, steps: seq<MixStep>)
    requires Words16(v) && Words16(m) && steps == RoundSteps()
    ensures MixAll(v, m, steps) == Round(v, m)
  {
    RoundStepsPublished();
    DiagonalsAreSteps(v, m, steps, 4);
    assert steps[..8] == steps;
  }

  lemma {:induction false} RoundsArePublished(v: seq<Bits>, m: seq<Bits>, n: nat)
    requires Words16(v) && Words16(m) && n <= 7
    ensures Rounds(v, m, n) == RoundsOf(v, m, n)
  {
    if n > 0 {
      RoundsArePublished(v, m, n - 1);
      ScheduleIsPublished(m, n - 1);
      RoundIsPublished(RoundsOf(v, m, n - 1), Selected(m, MessageRow(n - 1)), RoundSteps());
    }
  }

  /** For every message and state the word-level compression function is the published one. */
  lemma CompressionIsPublished(m: seq<Bits>, v: seq<Bits>)
    requires Words16(m) && Words16(v)
    ensures CompressWords(m, v) == Output(m, v)
  {
    RoundsArePublished(v, m, 7);
  }
}
