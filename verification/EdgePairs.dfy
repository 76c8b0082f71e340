/** The closed-form enumeration of ordered node pairs behind the storage benchmark's edge shapes. */
module EdgePairs {
  import opened FloorArithmetic
  import opened Options

  datatype Distribution =
    | HighFanIn
    | HighFanOut
    | Balanced
    | LongChain
    | Cyclic
    | Skewed
    | Diamond
    | Other(name: string)

  datatype PairError = TooFewNodes | UnsupportedDistribution(name: string)

  type Pair = (int, int)

  /** From this size on the skewed shape switches to its two triangular regions. */
  const SKEW_THRESHOLD := 128

  function Min(a: int, b: int): int {
    if a < b then a else b
  }

  function Max(a: int, b: int): int {
    if a > b then a else b
  }

  /** The number of hubs of the two high-fan shapes. */
  function Fan(nodes: int): (f: int)
    requires nodes >= 2
    ensures 2 <= f <= nodes
  {
    Max(2, Min(nodes - 1, (if nodes / 32 == 0 then 2 else nodes / 32) + 1))
  }

  function Half(nodes: int): int {
    nodes * (nodes - 1) / 2
  }

  /** The index of the first pair whose source is `block` when pairs source < target are listed row by row. */
  function RowStart(nodes: int, block: int): int
    decreases block
  {
    if block <= 0 then 0 else RowStart(nodes, block - 1) + (nodes - block)
  }

  /** The source's closed form of RowStart. */
  function RowFormula(nodes: int, block: int): int {
    block * (nodes - 1) - block * (block - 1) / 2
  }

  /** The index of the first pair whose source is `block` when row k holds k pairs. */
  function ColumnStart(block: int): int
    decreases block
  {
    if block <= 0 then 0 else ColumnStart(block - 1) + (block - 1)
  }

  function ColumnFormula(block: int): int {
    block * (block - 1) / 2
  }

  // ----- what each shape returns -----

  function Rotated(source: int, offset: int, nodes: int): Pair
    requires nodes > 0
  {
    (source, Mod(source + offset, nodes))
  }

  function HighFanPair(index: nat, nodes: int, inward: bool): Pair
    requires nodes >= 2
  {
    var fan := Fan(nodes);
    var ordinal, hub := Div(index, fan), Mod(index, fan);
    var spoke := Mod(ordinal, nodes - 1);
    var other := if spoke >= hub then spoke + 1 else spoke;
    if inward then (other, hub) else (hub, other)
  }

  /** How far block number `index / nodes` is rotated for a given source. */
  function Twist(d: Distribution, source: int): int {
    match d
    case Balanced => source
    case Cyclic => source * source
    case _ => 0
  }

  function ModularPair(index: nat, nodes: int, d: Distribution, seed: int): Pair
    requires nodes >= 2
  {
    var source := Mod(index + seed, nodes);
    Rotated(source, Mod(Div(index, nodes) + Twist(d, source), nodes - 1) + 1, nodes)
  }

  /** The row that holds a given ordinal, searched upwards from `from`. */
  function RowFrom(nodes: int, ordinal: int, from: int): (block: int)
    requires 0 <= from < nodes
    requires RowStart(nodes, from) <= ordinal < Half(nodes)
    ensures from <= block < nodes - 1
    ensures RowStart(nodes, block) <= ordinal < RowStart(nodes, block + 1)
    decreases nodes - from
  {
    RowEnd(nodes);
    if ordinal < RowStart(nodes, from + 1) then from else RowFrom(nodes, ordinal, from + 1)
  }

  function Row(nodes: int, ordinal: int): (block: int)
    requires nodes >= 2 && 0 <= ordinal < Half(nodes)
    ensures 0 <= block < nodes - 1
    ensures RowStart(nodes, block) <= ordinal < RowStart(nodes, block + 1)
  {
    RowFrom(nodes, ordinal, 0)
  }

  function ColumnFrom(ordinal: int, from: int): (block: int)
    requires from >= 1 && ColumnStart(from) <= ordinal
    ensures block >= from && ColumnStart(block) <= ordinal < ColumnStart(block + 1)
    decreases ordinal - ColumnStart(from)
  {
    if ordinal < ColumnStart(from + 1) then from else ColumnFrom(ordinal, from + 1)
  }

  function SkewedPair(index: nat, nodes: int): Pair
    requires nodes >= SKEW_THRESHOLD
  {
    if index < Half(nodes) then
      var block := Row(nodes, index);
      Rotated(block, index - RowStart(nodes, block) + 1, nodes)
    else
      var ordinal := index - Half(nodes);
      var block := ColumnFrom(ordinal, 1);
      Rotated(block, ordinal - ColumnStart(block) + 1, nodes)
  }

  function MotifLimit(nodes: int): int {
    nodes / 4 * 4
  }

  function DiamondPair(index: nat, nodes: int, seed: int): Pair
    requires nodes >= 4
  {
    var limit := MotifLimit(nodes);
    var perOffset := nodes - limit / 2;
    if index < limit then
      var base, slot := index / 4 * 4, index % 4;
      if slot == 0 then (base, base + 1)
      else if slot == 1 then (base, base + 2)
      else if slot == 2 then (base + 1, base + 3)
      else (base + 2, base + 3)
    else
      var filler := index - limit;
      if filler < perOffset then
        Rotated(FillerSource(filler, limit, 1), 1, nodes)
      else if filler < 2 * perOffset then
        Rotated(FillerSource(filler - perOffset, limit, 2), 2, nodes)
      else
        var remainder := filler - 2 * perOffset;
        Rotated(Mod(Mod(remainder, nodes) + seed, nodes), 3 + Div(remainder, nodes), nodes)
  }

  /** The sources the motifs left free for one offset: two in every group of four, then the nodes past the motifs. */
  function FillerSource(rank: int, limit: int, offset: int): int {
    if rank >= limit / 2 then limit + rank - limit / 2
    else if offset == 1 then 4 * (rank / 2) + 1 + 2 * (rank % 2)
    else 4 * (rank / 2) + 2 + rank % 2
  }

  function PairAt(index: nat, nodes: int, d: Distribution, seed: int): Result<Pair, PairError> {
    if nodes < 2 then Err(TooFewNodes)
    else
      match d
      case HighFanIn => Ok(HighFanPair(index, nodes, true))
      case HighFanOut => Ok(HighFanPair(index, nodes, false))
      case Balanced => Ok(ModularPair(index, nodes, d, seed))
      case LongChain => Ok(ModularPair(index, nodes, d, seed))
      case Cyclic => Ok(ModularPair(index, nodes, d, seed))
      case Skewed =>
        if nodes < SKEW_THRESHOLD then Ok(ModularPair(index, nodes, d, seed)) else Ok(SkewedPair(index, nodes))
      case Diamond =>
        if nodes < 4 then Ok(ModularPair(index, nodes, d, seed)) else Ok(DiamondPair(index, nodes, seed))
      case Other(name) => Err(UnsupportedDistribution(name))
  }

  // ----- triangular numbers -----

  lemma {:induction false} ColumnClosedForm(k: int)
    requires k >= 0
    ensures ColumnFormula(k) == ColumnStart(k) && 2 * ColumnStart(k) == k * (k - 1)
  {
    if k > 0 {
      ColumnClosedForm(k - 1);
      assert k * (k - 1) == (k - 1) * (k - 2) + 2 * (k - 1);
    }
  }

  lemma {:induction false} RowClosedForm(nodes: int, block: int)
    requires block >= 0
    ensures RowFormula(nodes, block) == RowStart(nodes, block)
    ensures 2 * RowStart(nodes, block) == 2 * (block * (nodes - 1)) - block * (block - 1)
  {
    ColumnClosedForm(block);
    if block > 0 {
      RowClosedForm(nodes, block - 1);
      assert block * (nodes - 1) == (block - 1) * (nodes - 1) + (nodes - 1);
      assert block * (block - 1) == (block - 1) * (block - 2) + 2 * (block - 1);
    }
  }

  /** Completing the square. */
  lemma {:induction false} RowAsSquares(nodes: int, block: int)
    requires 0 <= block < nodes
    ensures 8 * RowStart(nodes, block) == Squared(2 * nodes - 1) - Squared(2 * nodes - 1 - 2 * block)
  {
    if block > 0 {
      RowAsSquares(nodes, block - 1);
      var t := 2 * nodes - 1 - 2 * block;
      assert Squared(t + 2) == Squared(t + 1) + 2 * t + 3 == Squared(t) + 4 * t + 4;
    }
  }

  lemma {:induction false} ColumnAsSquare(block: int)
    requires block >= 1
    ensures 8 * ColumnStart(block) + 1 == Squared(2 * block - 1)
  {
    if block > 1 {
      ColumnAsSquare(block - 1);
      var t := 2 * block - 3;
      assert Squared(t + 2) == Squared(t + 1) + 2 * t + 3 == Squared(t) + 4 * t + 4;
    } else {
      assert Squared(1) == Squared(0) + 1;
    }
  }

  lemma RowEnd(nodes: int)
    requires nodes >= 1
    ensures RowStart(nodes, nodes - 1) == Half(nodes)
    ensures RowStart(nodes, nodes) == Half(nodes)
  {
    RowClosedForm(nodes, nodes);
    assert 2 * RowStart(nodes, nodes) == nodes * (nodes - 1);
  }

  /** Rows do not overlap: the bracketing row is unique. */
  lemma RowUnique(nodes: int, ordinal: int, a: int, b: int)
    requires 0 <= a < nodes && 0 <= b < nodes
    requires RowStart(nodes, a) <= ordinal < RowStart(nodes, a + 1)
    requires RowStart(nodes, b) <= ordinal < RowStart(nodes, b + 1)
    ensures a == b
  {
    if a < b {
      RowsIncrease(nodes, a + 1, b);
    } else if b < a {
      RowsIncrease(nodes, b + 1, a);
    }
  }

  lemma {:induction false} RowsIncrease(nodes: int, a: int, b: int)
    requires 0 <= a <= b <= nodes
    ensures RowStart(nodes, a) <= RowStart(nodes, b)
    decreases b - a
  {
    if a < b {
      RowsIncrease(nodes, a, b - 1);
    }
  }

  lemma {:induction false} TriangleAtLeast(k: int)
    requires k >= 0
    ensures ColumnStart(k + 1) >= k
  {
    if k > 0 {
      TriangleAtLeast(k - 1);
    }
  }

  lemma {:induction false} ColumnsIncrease(a: int, b: int)
    requires 0 <= a <= b
    ensures ColumnStart(a) <= ColumnStart(b)
    decreases b - a
  {
    if a < b {
      ColumnsIncrease(a, b - 1);
    }
  }

  lemma ColumnUnique(ordinal: int, a: int, b: int)
    requires 0 <= a && 0 <= b
    requires ColumnStart(a) <= ordinal < ColumnStart(a + 1)
    requires ColumnStart(b) <= ordinal < ColumnStart(b + 1)
    ensures a == b
  {
    if a < b {
      ColumnsIncrease(a + 1, b);
    } else if b < a {
      ColumnsIncrease(b + 1, a);
    }
  }

  // ----- the imperative skewed branch -----

  lemma RootBracket(m: int, b: int, d: int, root: nat)
    requires 0 <= b && 0 <= m - 2 * b - 2
    requires Squared(m - 2 * b - 2) < d <= Squared(m - 2 * b)
    requires Squared(root) <= d < Squared(root + 1)
    ensures b <= (m - root) / 2 <= b + 1
  {
    SquaredOrder(m - 2 * b - 2, root + 1);
    SquaredOrder(m - 2 * b, root);
  }

  lemma ColumnBracket(b: int, d: int, root: nat)
    requires b >= 1
    requires Squared(2 * b - 1) <= d < Squared(2 * b + 1)
    requires Squared(root) <= d < Squared(root + 1)
    ensures (1 + root) / 2 == b
  {
    SquaredOrder(2 * b - 1, root + 1);
    SquaredOrder(root, 2 * b + 1);
  }

  lemma RowDiscriminant(nodes: int, ordinal: int)
    requires nodes >= 2 && 0 <= ordinal < Half(nodes)
    ensures var d := Squared(2 * nodes - 1) - 8 * ordinal;
            var b := Row(nodes, ordinal);
            Squared(2 * nodes - 1 - 2 * b - 2) < d <= Squared(2 * nodes - 1 - 2 * b)
  {
    RowAsSquares(nodes, Row(nodes, ordinal));
    RowAsSquares(nodes, Row(nodes, ordinal) + 1);
  }

  /** The source's square-root guess at the row of an ordinal. */
  function RowGuess(nodes: int, ordinal: int): (guess: int)
    requires nodes >= 2 && 0 <= ordinal < Half(nodes)
    ensures 0 <= guess < nodes
  {
    RowDiscriminant(nodes, ordinal);
    var root := Isqrt(Squared(2 * nodes - 1) - 8 * ordinal);
    RootBracket(2 * nodes - 1, Row(nodes, ordinal), Squared(2 * nodes - 1) - 8 * ordinal, root);
    (2 * (nodes - 1) + 1 - root) / 2
  }

  /** The square-root guess is the row or one past it. */
  lemma RowGuessError(nodes: int, ordinal: int)
    requires nodes >= 2 && 0 <= ordinal < Half(nodes)
    ensures Row(nodes, ordinal) <= RowGuess(nodes, ordinal) <= Row(nodes, ordinal) + 1
  {
    hide Isqrt, RowStart, Squared, Half;
    RowDiscriminant(nodes, ordinal);
    var d := Squared(2 * nodes - 1) - 8 * ordinal;
    RootBracket(2 * nodes - 1, Row(nodes, ordinal), d, Isqrt(d));
  }

  /** In the second region the square-root guess is exact. */
  lemma ColumnGuess(ordinal: nat)
    ensures (1 + Isqrt(1 + 8 * ordinal)) / 2 == ColumnFrom(ordinal, 1)
  {
    var b, d := ColumnFrom(ordinal, 1), 1 + 8 * ordinal;
    ColumnAsSquare(b);
    ColumnAsSquare(b + 1);
    ColumnBracket(b, d, Isqrt(d));
  }

  /** The test of both row-correction loops, in the source's closed form. */
  predicate StartsAfter(nodes: int, block: int, ordinal: int): (r: bool)
    requires block >= 0
    ensures r == (RowStart(nodes, block) > ordinal)
  {
    RowClosedForm(nodes, block);
    RowFormula(nodes, block) > ordinal
  }

  /** The test of both column-correction loops, in the source's closed form. */
  predicate ColumnStartsAfter(block: int, ordinal: int): (r: bool)
    requires block >= 0
    ensures r == (ColumnStart(block) > ordinal)
  {
    ColumnClosedForm(block);
    ColumnFormula(block) > ordinal
  }

  /** The first correction loop runs at most once and the second never. */
  method FindRow(nodes: int, ordinal: int) returns (block: int, ghost downs: nat, ghost ups: nat)
    requires nodes >= 2 && 0 <= ordinal < Half(nodes)
    ensures block == Row(nodes, ordinal) && downs <= 1 && ups == 0
  {
    ghost var row := Row(nodes, ordinal);
    block := RowGuess(nodes, ordinal);
    ghost var guess := block;
    downs := 0;
    while StartsAfter(nodes, block, ordinal)
      invariant 0 <= block <= guess < nodes && downs == guess - block
      invariant row <= guess ==> row <= block
      decreases block
    {
      block, downs := block - 1, downs + 1;
    }
    RowEnd(nodes);
    ghost var first := block;
    ups := 0;
    while !StartsAfter(nodes, block + 1, ordinal)
      invariant first <= block < nodes - 1 && ups == block - first
      invariant RowStart(nodes, block) <= ordinal
      decreases nodes - block
    {
      block, ups := block + 1, ups + 1;
    }
    RowUnique(nodes, ordinal, block, row);
    RowGuessError(nodes, ordinal);
  }

  /** Neither correction loop of the second region ever runs. */
  method FindColumn(ordinal: nat) returns (block: int, ghost downs: nat, ghost ups: nat)
    ensures block == ColumnFrom(ordinal, 1) && downs == 0 && ups == 0
  {
    ghost var column := ColumnFrom(ordinal, 1);
    block := (1 + Isqrt(1 + 8 * ordinal)) / 2;
    ghost var guess := block;
    downs := 0;
    while ColumnStartsAfter(block, ordinal)
      invariant 0 <= block <= guess && downs == guess - block
      invariant column <= guess ==> column <= block
      decreases block
    {
      block, downs := block - 1, downs + 1;
    }
    ghost var first := block;
    ups := 0;
    TriangleAtLeast(block);
    while !ColumnStartsAfter(block + 1, ordinal)
      invariant first <= block && ups == block - first
      invariant ColumnStart(block) <= ordinal && block <= ColumnStart(block + 1)
      decreases ordinal + 1 - block
    {
      block, ups := block + 1, ups + 1;
      TriangleAtLeast(block);
    }
    ColumnUnique(ordinal, block, column);
    ColumnGuess(ordinal);
  }

  method EnumeratePair(index: nat, nodes: int, d: Distribution, seed: int) returns (r: Result<Pair, PairError>)
    ensures r == PairAt(index, nodes, d, seed)
  {
    if nodes < 2 {
      return Err(TooFewNodes);
    }
    if d.Other? {
      return Err(UnsupportedDistribution(d.name));
    }
    var source, target: int;
    if d == HighFanIn || d == HighFanOut {
      source, target := EnumerateHighFan(index, nodes, d == HighFanIn);
    } else if d == Skewed && nodes >= 128 {
      source, target := EnumerateSkewed(index, nodes);
    } else if d == Diamond && nodes >= 4 {
      source, target := EnumerateDiamond(index, nodes, seed);
    } else {
      source, target := EnumerateModular(index, nodes, d, seed);
    }
    r := Ok((source, target));
  }

  method EnumerateHighFan(index: nat, nodes: int, inward: bool) returns (source: int, target: int)
    requires nodes >= 2
    ensures (source, target) == HighFanPair(index, nodes, inward)
  {
    var buckets := nodes / 32;
    if buckets == 0 {
      buckets := 2;
    }
    var fan := Max(2, Min(nodes - 1, buckets + 1));
    BuiltIn(index, fan);
    BuiltIn(index / fan, nodes - 1);
    var ordinal, bucket := index / fan, index % fan;
    if inward {
      target := bucket;
      source := ordinal % (nodes - 1);
      if source >= target {
        source := source + 1;
      }
    } else {
      source := bucket;
      target := ordinal % (nodes - 1);
      if target >= source {
        target := target + 1;
      }
    }
  }

  method EnumerateModular(index: nat, nodes: int, d: Distribution, seed: int) returns (source: int, target: int)
    requires nodes >= 2
    ensures (source, target) == ModularPair(index, nodes, d, seed)
  {
    var block := index / nodes;
    source := (index + seed) % nodes;
    var offset := block % (nodes - 1) + 1;
    if d == Balanced {
      offset := (block + source) % (nodes - 1) + 1;
    } else if d == Cyclic {
      offset := (block + source * source) % (nodes - 1) + 1;
    }
    target := (source + offset) % nodes;
    ModularOffset(index, nodes, d, seed);
    BuiltIn(source + offset, nodes);
  }

  method EnumerateSkewed(index: nat, nodes: int) returns (source: int, target: int)
    requires nodes >= 128
    ensures (source, target) == SkewedPair(index, nodes)
  {
    var half := nodes * (nodes - 1) / 2;
    var offset: int;
    if index < half {
      var block, _, _ := FindRow(nodes, index);
      RowClosedForm(nodes, block);
      offset := index - (block * (nodes - 1) - block * (block - 1) / 2) + 1;
      source := block;
    } else {
      var block, _, _ := FindColumn(index - half);
      ColumnClosedForm(block);
      offset := index - half - block * (block - 1) / 2 + 1;
      source := block;
    }
    target := (source + offset) % nodes;
    BuiltIn(source + offset, nodes);
  }

  method EnumerateDiamond(index: nat, nodes: int, seed: int) returns (source: int, target: int)
    requires nodes >= 4
    ensures (source, target) == DiamondPair(index, nodes, seed)
  {
    hide Mod, Div, Rotated, FillerSource;
    var motifLimit := (nodes / 4) * 4;
    if index < motifLimit {
      source, target := EnumerateMotif(index);
      return;
    }
    var filler := index - motifLimit;
    var allowedPerOffset := nodes - motifLimit / 2;
    var offset: int;
    if filler < allowedPerOffset {
      offset := 1;
      source := EnumerateFiller(filler, motifLimit, 1);
    } else if filler < 2 * allowedPerOffset {
      offset := 2;
      source := EnumerateFiller(filler - allowedPerOffset, motifLimit, 2);
    } else {
      var remainder := filler - 2 * allowedPerOffset;
      offset := 3 + remainder / nodes;
      source := (remainder % nodes + seed) % nodes;
      BuiltIn(remainder, nodes);
      BuiltIn(remainder % nodes + seed, nodes);
    }
    target := (source + offset) % nodes;
    RotatedBuiltIn(source, offset, nodes);
  }

  lemma RotatedBuiltIn(source: int, offset: int, nodes: int)
    requires nodes > 0
    ensures Rotated(source, offset, nodes) == (source, (source + offset) % nodes)
  {
    BuiltIn(source + offset, nodes);
  }

  method EnumerateMotif(index: nat) returns (source: int, target: int)
    ensures (source, target) == MotifEdge(index / 4, index % 4)
  {
    var base, slot := index / 4 * 4, index % 4;
    if slot == 0 {
      source, target := base, base + 1;
    } else if slot == 1 {
      source, target := base, base + 2;
    } else if slot == 2 {
      source, target := base + 1, base + 3;
    } else {
      source, target := base + 2, base + 3;
    }
  }

  method EnumerateFiller(rank: nat, motifLimit: nat, offset: int) returns (source: int)
    requires offset == 1 || offset == 2
    ensures source == FillerSource(rank, motifLimit, offset)
  {
    if rank < motifLimit / 2 {
      if offset == 1 {
        source := 4 * (rank / 2) + 1 + 2 * (rank % 2);
      } else {
        source := 4 * (rank / 2) + 2 + 1 * (rank % 2);
      }
    } else {
      source := motifLimit + rank - motifLimit / 2;
    }
  }

  // ----- what tells the shapes apart -----

  /** The offset from source to target in block b of the shapes that rotate whole blocks. */
  lemma ModularOffset(index: nat, nodes: int, d: Distribution, seed: int)
    requires nodes >= 2
    ensures var (source, target), b := ModularPair(index, nodes, d, seed), index / nodes;
            var offset := match d
                          case Balanced => (b + source) % (nodes - 1) + 1
                          case Cyclic => (b + source * source) % (nodes - 1) + 1
                          case _ => b % (nodes - 1) + 1;
            && source == (index + seed) % nodes && target == (source + offset) % nodes
            && (target - source) % nodes == offset
  {
    hide Mod, Div, OffsetOf;
    var source := Mod(index + seed, nodes);
    var twist := Twist(d, source);
    BuiltIn(index + seed, nodes);
    BuiltIn(index, nodes);
    BuiltIn(Div(index, nodes) + twist, nodes - 1);
    var offset := Mod(Div(index, nodes) + twist, nodes - 1) + 1;
    BuiltIn(source + offset, nodes);
    OffsetOfRotated(nodes, source, offset);
    OffsetBuiltIn(nodes, Rotated(source, offset, nodes));
  }

  lemma OffsetBuiltIn(nodes: int, pair: Pair)
    requires nodes > 0
    ensures OffsetOf(nodes, pair) == (pair.1 - pair.0) % nodes
  {
    BuiltIn(pair.1 - pair.0, nodes);
  }

  /** The first block of the long chain is one cycle through all nodes. */
  lemma LongChainIsACycle(index: nat, nodes: int, seed: int)
    requires index < nodes && nodes >= 2
    ensures var source := (index + seed) % nodes;
            PairAt(index, nodes, LongChain, seed) == Ok((source, (source + 1) % nodes))
  {
    hide ModularPair;
    var pair := ModularPair(index, nodes, LongChain, seed);
    ModularOffset(index, nodes, LongChain, seed);
    Below(index, nodes);
    Below(0, nodes - 1);
    assert index / nodes % (nodes - 1) + 1 == 1;
    assert pair == (pair.0, pair.1);
  }

  lemma Below(x: nat, n: int)
    requires x < n
    ensures x / n == 0 && x % n == x
  {
  }

  /** Within one block of the balanced shape every offset occurs. */
  lemma BalancedBlockHasEveryOffset(block: nat, nodes: int, seed: int, offset: int) returns (index: nat)
    requires nodes >= 2 && 1 <= offset < nodes
    ensures index / nodes == block
    ensures var r := PairAt(index, nodes, Balanced, seed); r.Ok? && (r.value.1 - r.value.0) % nodes == offset
  {
    hide Mod, Div, ModularPair;
    var source := Mod(offset - 1 - block, nodes - 1);
    var place := Mod(source - seed, nodes);
    ProductNonNegative(block, nodes);
    index := block * nodes + place;
    BlockOfIndex(block, place, nodes);
    PlaceRestored(index, place, nodes, seed, source);
    ModRestore(offset - 1, block, nodes - 1);
    assert source + block == block + source;
    ModularOffset(index, nodes, Balanced, seed);
    BuiltIn(index + seed, nodes);
    BuiltIn(block + source, nodes - 1);
  }

  lemma BlockOfIndex(block: nat, place: int, nodes: int)
    requires 0 <= place < nodes
    ensures var index := block * nodes + place; index / nodes == block && Mod(index, nodes) == place
  {
    hide Mod, Div;
    DivModUnique(block, place, nodes);
    BuiltIn(block * nodes + place, nodes);
  }

  /** Each group of four nodes is a diamond: its first edges lead from the first node to the middle ones and on to the last. */
  lemma DiamondGroup(group: nat, nodes: int, seed: int)
    requires nodes >= 4 && 4 * group + 4 <= nodes
    ensures var base := 4 * group;
            && PairAt(base, nodes, Diamond, seed) == Ok((base, base + 1))
            && PairAt(base + 1, nodes, Diamond, seed) == Ok((base, base + 2))
            && PairAt(base + 2, nodes, Diamond, seed) == Ok((base + 1, base + 3))
            && PairAt(base + 3, nodes, Diamond, seed) == Ok((base + 2, base + 3))
  {
    hide Mod, Div, FillerSource, Rotated;
    SourceInGroup(group, 0);
    SourceInGroup(group, 1);
    SourceInGroup(group, 2);
    SourceInGroup(group, 3);
    GroupFits(group, nodes);
  }

  lemma GroupFits(group: nat, nodes: int)
    requires nodes >= 4 && 4 * group + 4 <= nodes
    ensures 4 * group + 4 <= MotifLimit(nodes)
  {
  }

  /** Behind the diamonds all remaining edges of offset 1 come, then those of offset 2, from the nodes without such an edge. */
  lemma DiamondFillers(rank: nat, nodes: int, seed: int, offset: int)
    requires nodes >= 4 && 1 <= offset <= 2
    requires var limit := nodes / 4 * 4; rank < nodes - limit / 2
    ensures var limit := nodes / 4 * 4;
            var index := limit + rank + if offset == 1 then 0 else nodes - limit / 2;
            var source := if rank >= limit / 2 then rank + limit / 2
                          else if offset == 1 then 4 * (rank / 2) + (if rank % 2 == 0 then 1 else 3)
                          else 4 * (rank / 2) + (if rank % 2 == 0 then 2 else 3);
            PairAt(index, nodes, Diamond, seed) == Ok((source, (source + offset) % nodes))
  {
    hide Mod, Div, Rotated;
    FreeSources(nodes);
    var limit := nodes / 4 * 4;
    RotatedBuiltIn(FillerSource(rank, limit, offset), offset, nodes);
  }

  /** From there on whole blocks are rotated, by 3 and more. */
  lemma DiamondRemainder(remainder: nat, nodes: int, seed: int)
    requires nodes >= 4
    ensures var source := (remainder % nodes + seed) % nodes;
            PairAt(2 * nodes + remainder, nodes, Diamond, seed) == Ok((source, (source + 3 + remainder / nodes) % nodes))
  {
    hide Mod, Div, Rotated, DiamondPair;
    FarPair(2 * nodes + remainder, nodes, seed);
    BuiltIn(remainder, nodes);
    BuiltIn(remainder % nodes + seed, nodes);
    RotatedBuiltIn((remainder % nodes + seed) % nodes, 3 + remainder / nodes, nodes);
  }

  /** The hub of index i is i modulo the number of hubs, and within a hub the other nodes come in order. */
  lemma HighFanOrder(index: nat, nodes: int, seed: int)
    requires nodes >= 2
    ensures var hub, next := index % Fan(nodes), index / Fan(nodes) % (nodes - 1);
            var other := if next < hub then next else next + 1;
            && PairAt(index, nodes, HighFanIn, seed) == Ok((other, hub))
            && PairAt(index, nodes, HighFanOut, seed) == Ok((hub, other))
  {
    hide Mod, Div, Fan;
    BuiltIn(index, Fan(nodes));
    BuiltIn(index / Fan(nodes), nodes - 1);
  }

  /** The number of hubs of the high-fan shapes, by the number of nodes. */
  lemma FanBySize(nodes: int)
    requires nodes >= 2
    ensures Fan(nodes) == if nodes < 4 then 2 else if nodes < 32 then 3 else nodes / 32 + 1
  {
  }

  /** From 128 nodes on, and no earlier, the skewed shape lists the first node's pairs before all others. */
  lemma SkewedFirstRow(nodes: int, seed: int, index: nat)
    requires nodes >= 128 && index < nodes - 1
    ensures PairAt(index, nodes, Skewed, seed) == Ok((0, index + 1))
  {
    RowEnd(nodes);
    RowsIncrease(nodes, 1, nodes - 1);
    assert RowStart(nodes, 1) == nodes - 1 && RowStart(nodes, 0) == 0;
    RowUnique(nodes, index, 0, Row(nodes, index));
    BuiltIn(index + 1, nodes);
  }

  /** Below that it rotates like the long chain. */
  lemma SkewedSmall(nodes: int, seed: int, index: nat)
    requires 2 <= nodes < 128
    ensures PairAt(index, nodes, Skewed, seed) == PairAt(index, nodes, LongChain, seed)
  {
  }

  // ----- the inverse of each shape -----

  /** The number of indices on which a shape is injective. */
  function Limit(nodes: int, d: Distribution): int
    requires nodes >= 2 && !d.Other?
  {
    match d
    case HighFanIn => Fan(nodes) * (nodes - 1)
    case HighFanOut => Fan(nodes) * (nodes - 1)
    case Skewed => if nodes < SKEW_THRESHOLD then nodes * (nodes - 1) else Half(nodes)
    case _ => nodes * (nodes - 1)
  }

  /** The pairs a shape reaches from the indices below its limit. */
  predicate Covered(nodes: int, d: Distribution, pair: Pair)
    requires nodes >= 2 && !d.Other?
  {
    var (source, target) := pair;
    && 0 <= source < nodes && 0 <= target < nodes && source != target
    && match d
       case HighFanIn => target < Fan(nodes)
       case HighFanOut => source < Fan(nodes)
       case Skewed => nodes < SKEW_THRESHOLD || source < target
       case _ => true
  }

  function OffsetOf(nodes: int, pair: Pair): int
    requires nodes > 0
  {
    Mod(pair.1 - pair.0, nodes)
  }

  function HighFanRank(nodes: int, hub: int, other: int): int
    requires nodes >= 2
  {
    (if other > hub then other - 1 else other) * Fan(nodes) + hub
  }

  function ModularRank(nodes: int, d: Distribution, seed: int, pair: Pair): int
    requires nodes >= 2
  {
    var source := pair.0;
    Mod(OffsetOf(nodes, pair) - 1 - Twist(d, source), nodes - 1) * nodes + Mod(source - seed, nodes)
  }

  /** The position of a free source among the free sources of its offset. */
  function FillerRank(source: int, limit: int, offset: int): int {
    var group, place := source / 4, source % 4;
    if source >= limit then limit / 2 + (source - limit)
    else if offset == 1 then 2 * group + (place - 1) / 2
    else 2 * group + (place - 2)
  }

  function DiamondRank(nodes: int, seed: int, pair: Pair): int
    requires nodes >= 4
  {
    var source, offset := pair.0, OffsetOf(nodes, pair);
    var limit := MotifLimit(nodes);
    var perOffset := nodes - limit / 2;
    var group, place := source / 4, source % 4;
    if offset == 1 then
      if source < limit && place == 0 then 4 * group
      else if source < limit && place == 2 then 4 * group + 3
      else limit + FillerRank(source, limit, 1)
    else if offset == 2 then
      if source < limit && place < 2 then 4 * group + 1 + place
      else limit + perOffset + FillerRank(source, limit, 2)
    else
      2 * nodes + (offset - 3) * nodes + Mod(source - seed, nodes)
  }

  function Rank(nodes: int, d: Distribution, seed: int, pair: Pair): int
    requires nodes >= 2 && !d.Other?
  {
    match d
    case HighFanIn => HighFanRank(nodes, pair.1, pair.0)
    case HighFanOut => HighFanRank(nodes, pair.0, pair.1)
    case Skewed =>
      if nodes < SKEW_THRESHOLD then ModularRank(nodes, d, seed, pair)
      else RowStart(nodes, pair.0) + (pair.1 - pair.0 - 1)
    case Diamond => if nodes < 4 then ModularRank(nodes, d, seed, pair) else DiamondRank(nodes, seed, pair)
    case _ => ModularRank(nodes, d, seed, pair)
  }

  // ----- rotation -----

  /** Rotated(source, offset) and OffsetOf are inverse to each other. */
  lemma OffsetOfRotated(nodes: int, source: int, offset: int)
    requires nodes >= 2 && 0 <= source < nodes && 1 <= offset < nodes
    ensures var pair := Rotated(source, offset, nodes);
            pair.0 == source && 0 <= pair.1 < nodes && pair.1 != source && OffsetOf(nodes, pair) == offset
  {
    ModCancel(offset, source, nodes);
    assert offset + source == source + offset;
    RotatedTarget(nodes, source, offset);
  }

  lemma RotatedTarget(nodes: int, source: int, offset: int)
    requires nodes >= 2 && 0 <= source < nodes && 0 <= offset < nodes
    ensures Mod(source + offset, nodes) == if source + offset < nodes then source + offset else source + offset - nodes
  {
  }

  lemma RotatedByOffset(nodes: int, pair: Pair)
    requires nodes >= 2 && 0 <= pair.0 < nodes && 0 <= pair.1 < nodes && pair.0 != pair.1
    ensures 1 <= OffsetOf(nodes, pair) < nodes
    ensures Rotated(pair.0, OffsetOf(nodes, pair), nodes) == pair
  {
    var d := pair.1 - pair.0;
    assert Mod(d, nodes) == if d > 0 then d else d + nodes;
    RotatedTarget(nodes, pair.0, Mod(d, nodes));
  }

  // ----- each shape and its inverse -----

  lemma HighFanRoundTrip(index: nat, nodes: int, inward: bool)
    requires nodes >= 2 && index < Fan(nodes) * (nodes - 1)
    ensures var pair := HighFanPair(index, nodes, inward);
            var (hub, other) := if inward then (pair.1, pair.0) else pair;
            && 0 <= hub < Fan(nodes) && 0 <= other < nodes && hub != other
            && HighFanRank(nodes, hub, other) == index
  {
    var fan := Fan(nodes);
    assert fan * (nodes - 1) == (nodes - 1) * fan;
    DivBound(index, nodes - 1, fan);
    DivModDecompose(index, fan);
  }

  lemma HighFanUnrank(nodes: int, hub: int, other: int, inward: bool)
    requires nodes >= 2 && 0 <= hub < Fan(nodes) && 0 <= other < nodes && hub != other
    ensures 0 <= HighFanRank(nodes, hub, other) < Fan(nodes) * (nodes - 1)
    ensures HighFanPair(HighFanRank(nodes, hub, other), nodes, inward)
         == if inward then (other, hub) else (hub, other)
  {
    var fan := Fan(nodes);
    var spoke := if other > hub then other - 1 else other;
    ProductBound(spoke, nodes - 1, fan, hub);
    assert fan * (nodes - 1) == (nodes - 1) * fan;
    DivModUnique(spoke, hub, fan);
  }

  lemma ModularRoundTrip(index: nat, nodes: int, d: Distribution, seed: int)
    requires nodes >= 2 && index < nodes * (nodes - 1)
    ensures var pair := ModularPair(index, nodes, d, seed);
            && 0 <= pair.0 < nodes && 0 <= pair.1 < nodes && pair.0 != pair.1
            && ModularRank(nodes, d, seed, pair) == index
  {
    hide Mod, Div, Twist, OffsetOf, Rotated, ModularRank, ModularPair;
    var block, place, source := Div(index, nodes), Mod(index, nodes), Mod(index + seed, nodes);
    var twist := Twist(d, source);
    var offset := Mod(block + twist, nodes - 1) + 1;
    TakenApart(index, nodes, seed);
    OffsetOfRotated(nodes, source, offset);
    ModCancel(block, twist, nodes - 1);
    PairFromBlock(index, nodes, d, seed, source, block);
    RankOfBlock(index, nodes, d, seed, Rotated(source, offset, nodes));
  }

  /** The block and the place of an index, also after rotation. */
  lemma TakenApart(index: nat, nodes: int, seed: int)
    requires nodes >= 2 && index < nodes * (nodes - 1)
    ensures var block, place, source := Div(index, nodes), Mod(index, nodes), Mod(index + seed, nodes);
            && 0 <= block < nodes - 1 && 0 <= source < nodes && Mod(source - seed, nodes) == place
  {
    hide Mod, Div;
    var size := nodes - 1;
    assert nodes * size == size * nodes;
    DivBound(index, size, nodes);
    PlaceTaken(index, nodes, seed);
  }

  lemma PlaceTaken(index: int, nodes: int, seed: int)
    requires nodes >= 2
    ensures Mod(Mod(index + seed, nodes) - seed, nodes) == Mod(index, nodes)
  {
    ModDrop(index + seed, -seed, nodes);
  }

  lemma RankOfBlock(index: int, nodes: int, d: Distribution, seed: int, pair: Pair)
    requires nodes >= 2 && Mod(pair.0 - seed, nodes) == Mod(index, nodes)
    requires Mod(OffsetOf(nodes, pair) - 1 - Twist(d, pair.0), nodes - 1) == Div(index, nodes)
    ensures ModularRank(nodes, d, seed, pair) == index
  {
    hide Mod, Div, OffsetOf, Twist;
    DivModDecompose(index, nodes);
  }

  lemma ModularUnrank(nodes: int, d: Distribution, seed: int, pair: Pair)
    requires nodes >= 2 && 0 <= pair.0 < nodes && 0 <= pair.1 < nodes && pair.0 != pair.1
    ensures 0 <= ModularRank(nodes, d, seed, pair) < nodes * (nodes - 1)
    ensures ModularPair(ModularRank(nodes, d, seed, pair), nodes, d, seed) == pair
  {
    hide Mod, Div, Twist, Rotated, OffsetOf, ModularPair;
    var source := pair.0;
    RotatedByOffset(nodes, pair);
    var twist, z := Twist(d, source), OffsetOf(nodes, pair) - 1;
    var block := Mod(z - twist, nodes - 1);
    Assembled(block, nodes - 1, nodes, seed, source);
    ModRestore(z, twist, nodes - 1);
    PairFromBlock(ModularRank(nodes, d, seed, pair), nodes, d, seed, source, block);
  }

  lemma PairFromBlock(index: nat, nodes: int, d: Distribution, seed: int, source: int, block: int)
    requires nodes >= 2 && Mod(index + seed, nodes) == source && Div(index, nodes) == block
    ensures ModularPair(index, nodes, d, seed) == Rotated(source, Mod(block + Twist(d, source), nodes - 1) + 1, nodes)
  {
  }

  /** An index assembled from a block and a place comes apart into them again, also after rotation. */
  lemma Assembled(block: int, blocks: int, nodes: int, seed: int, source: int)
    requires nodes >= 2 && 0 <= block < blocks && 0 <= source < nodes
    ensures var place := Mod(source - seed, nodes);
            var index := block * nodes + place;
            && 0 <= index < nodes * blocks
            && Div(index, nodes) == block && Mod(index, nodes) == place && Mod(index + seed, nodes) == source
            && Mod(place + seed, nodes) == source
  {
    var place := Mod(source - seed, nodes);
    ProductBound(block, blocks, nodes, place);
    assert nodes * blocks == blocks * nodes;
    DivModUnique(block, place, nodes);
    PlaceRestored(block * nodes + place, place, nodes, seed, source);
  }

  lemma PlaceRestored(index: int, place: int, nodes: int, seed: int, source: int)
    requires nodes >= 2 && 0 <= source < nodes
    requires place == Mod(source - seed, nodes) == Mod(index, nodes)
    ensures Mod(index + seed, nodes) == source == Mod(place + seed, nodes)
  {
    ModDrop(index, seed, nodes);
    ModRestore(source, seed, nodes);
  }

  lemma SkewedRoundTrip(index: nat, nodes: int)
    requires nodes >= SKEW_THRESHOLD && index < Half(nodes)
    ensures var pair := SkewedPair(index, nodes);
            0 <= pair.0 < pair.1 < nodes && RowStart(nodes, pair.0) + (pair.1 - pair.0 - 1) == index
  {
    var block := Row(nodes, index);
    var target := block + (index - RowStart(nodes, block) + 1);
  }

  lemma SkewedUnrank(nodes: int, pair: Pair)
    requires nodes >= SKEW_THRESHOLD && 0 <= pair.0 < pair.1 < nodes
    ensures var index := RowStart(nodes, pair.0) + (pair.1 - pair.0 - 1);
            0 <= index < Half(nodes) && SkewedPair(index, nodes) == pair
  {
    var (source, target) := pair;
    var index := RowStart(nodes, source) + (target - source - 1);
    RowsIncrease(nodes, 0, source);
    RowsIncrease(nodes, source + 1, nodes - 1);
    RowEnd(nodes);
    RowUnique(nodes, index, source, Row(nodes, index));
  }

  ghost predicate DiamondInverts(index: nat, nodes: int, seed: int)
    requires nodes >= 4
  {
    var pair := DiamondPair(index, nodes, seed);
    && 0 <= pair.0 < nodes && 0 <= pair.1 < nodes && pair.0 != pair.1
    && DiamondRank(nodes, seed, pair) == index
  }

  lemma DiamondRoundTrip(index: nat, nodes: int, seed: int)
    requires nodes >= 4 && index < nodes * (nodes - 1)
    ensures DiamondInverts(index, nodes, seed)
  {
    var limit := MotifLimit(nodes);
    var perOffset := nodes - limit / 2;
    if index < limit {
      MotifRoundTrip(index, nodes, seed);
    } else if index < 2 * nodes {
      FillersRoundTrip(index, nodes, seed);
    } else {
      RemainderInverts(index, nodes, seed);
    }
  }

  lemma FillersRoundTrip(index: nat, nodes: int, seed: int)
    requires nodes >= 4 && MotifLimit(nodes) <= index < 2 * nodes
    ensures DiamondInverts(index, nodes, seed)
  {
    hide Mod, Div;
    var limit := MotifLimit(nodes);
    var perOffset := nodes - limit / 2;
    FreeSources(nodes);
    if index - limit < perOffset {
      FillerRoundTrip(index - limit, nodes, 1);
    } else {
      FillerRoundTrip(index - limit - perOffset, nodes, 2);
    }
  }

  lemma RemainderInverts(index: nat, nodes: int, seed: int)
    requires nodes >= 4 && 2 * nodes <= index < nodes * (nodes - 1)
    ensures DiamondInverts(index, nodes, seed)
  {
    hide Mod, Div;
    var remainder := index - 2 * nodes;
    RemainderRange(index, nodes);
    RemainderRoundTrip(remainder, nodes, seed);
    FarPair(index, nodes, seed);
  }

  lemma RemainderRange(index: nat, nodes: int)
    requires index < nodes * (nodes - 1)
    ensures index - 2 * nodes < (nodes - 3) * nodes
  {
  }

  /** Past the motifs and fillers the layout is the plain modular one, with offsets from three on. */
  lemma FarPair(index: nat, nodes: int, seed: int)
    requires nodes >= 4 && 2 * nodes <= index
    ensures DiamondPair(index, nodes, seed)
         == Rotated(Mod(Mod(index - 2 * nodes, nodes) + seed, nodes), 3 + Div(index - 2 * nodes, nodes), nodes)
  {
    FreeSources(nodes);
  }

  lemma FreeSources(nodes: int)
    requires nodes >= 4
    ensures var limit := MotifLimit(nodes);
            4 <= limit <= nodes && limit / 2 * 2 == limit && limit + 2 * (nodes - limit / 2) == 2 * nodes
  {
    var groups := nodes / 4;
    assert MotifLimit(nodes) == 4 * groups && 4 * groups / 2 == 2 * groups;
  }

  lemma RemainderRoundTrip(remainder: nat, nodes: int, seed: int)
    requires nodes >= 4 && remainder < (nodes - 3) * nodes
    ensures var source, offset := Mod(Mod(remainder, nodes) + seed, nodes), 3 + Div(remainder, nodes);
            var pair := Rotated(source, offset, nodes);
            && 0 <= pair.1 < nodes && pair.1 != source && 3 <= offset && OffsetOf(nodes, pair) == offset
            && (offset - 3) * nodes + Mod(source - seed, nodes) == remainder
  {
    var place := Mod(remainder, nodes);
    DivBound(remainder, nodes - 3, nodes);
    DivModDecompose(remainder, nodes);
    OffsetOfRotated(nodes, Mod(place + seed, nodes), 3 + Div(remainder, nodes));
    ModCancel(place, seed, nodes);
  }

  /** The four edges of a motif, by slot. */
  function MotifEdge(group: nat, slot: nat): Pair
    requires slot < 4
  {
    var base := 4 * group;
    if slot == 0 then (base, base + 1)
    else if slot == 1 then (base, base + 2)
    else if slot == 2 then (base + 1, base + 3)
    else (base + 2, base + 3)
  }

  lemma MotifPlace(index: nat, nodes: int, seed: int) returns (group: nat, slot: nat)
    requires nodes >= 4 && index < MotifLimit(nodes)
    ensures slot < 4 && index == 4 * group + slot && 4 * group + 4 <= MotifLimit(nodes) <= nodes
    ensures DiamondPair(index, nodes, seed) == MotifEdge(group, slot)
  {
    hide Mod, Div;
    FreeSources(nodes);
    group, slot := index / 4, index % 4;
    assert MotifLimit(nodes) == nodes / 4 * 4;
  }

  lemma SourceInGroup(group: nat, place: nat)
    requires place < 4
    ensures (4 * group + place) / 4 == group && (4 * group + place) % 4 == place
  {
  }

  lemma MotifRank(nodes: int, seed: int, group: nat, slot: nat)
    requires nodes >= 4 && slot < 4 && 4 * group + 4 <= MotifLimit(nodes) <= nodes
    ensures DiamondRank(nodes, seed, MotifEdge(group, slot)) == 4 * group + slot
  {
    hide Mod, FillerRank, MotifLimit;
    var pair := MotifEdge(group, slot);
    SourceInGroup(group, pair.0 - 4 * group);
    DivModUnique(0, pair.1 - pair.0, nodes);
    assert OffsetOf(nodes, pair) == pair.1 - pair.0;
  }

  lemma MotifRoundTrip(index: nat, nodes: int, seed: int)
    requires nodes >= 4 && index < MotifLimit(nodes)
    ensures DiamondInverts(index, nodes, seed)
  {
    hide DiamondPair, DiamondRank, MotifLimit;
    var group, slot := MotifPlace(index, nodes, seed);
    MotifRank(nodes, seed, group, slot);
  }

  lemma FillerRoundTrip(rank: nat, nodes: int, offset: int)
    requires nodes >= 4 && 1 <= offset <= 2 && rank < nodes - MotifLimit(nodes) / 2
    ensures var limit := MotifLimit(nodes);
            var source := FillerSource(rank, limit, offset);
            var pair := Rotated(source, offset, nodes);
            && 0 <= source < nodes && 0 <= pair.1 < nodes && pair.1 != source && OffsetOf(nodes, pair) == offset
            && FillerRank(source, limit, offset) == rank
            && (source < limit ==> if offset == 1 then source % 4 in {1, 3} else source % 4 in {2, 3})
  {
    FillerPlace(rank, nodes, nodes / 4, offset);
    OffsetOfRotated(nodes, FillerSource(rank, MotifLimit(nodes), offset), offset);
  }

  lemma FillerPlace(rank: nat, nodes: int, groups: nat, offset: int)
    requires 4 * groups <= nodes && 1 <= offset <= 2 && rank < nodes - 2 * groups
    ensures var source := FillerSource(rank, 4 * groups, offset);
            && 0 <= source < nodes
            && FillerRank(source, 4 * groups, offset) == rank
            && (source < 4 * groups ==> if offset == 1 then source % 4 in {1, 3} else source % 4 in {2, 3})
  {
    GroupOfRank(rank);
  }

  lemma GroupOfRank(rank: nat)
    ensures var s := 4 * (rank / 2) + 1 + 2 * (rank % 2);
            s % 4 == 1 + 2 * (rank % 2) && s / 4 == rank / 2
    ensures var s := 4 * (rank / 2) + 2 + rank % 2;
            s % 4 == 2 + rank % 2 && s / 4 == rank / 2
  {
  }

  lemma FillersFit(nodes: int)
    requires nodes >= 4
    ensures 2 * nodes <= nodes * (nodes - 1)
  {
    ProductNonNegative(nodes, nodes - 3);
  }

  ghost predicate DiamondReaches(nodes: int, seed: int, pair: Pair)
    requires nodes >= 4
  {
    && 0 <= DiamondRank(nodes, seed, pair) < nodes * (nodes - 1)
    && DiamondPair(DiamondRank(nodes, seed, pair), nodes, seed) == pair
  }

  lemma DiamondUnrank(nodes: int, seed: int, pair: Pair)
    requires nodes >= 4 && 0 <= pair.0 < nodes && 0 <= pair.1 < nodes && pair.0 != pair.1
    ensures DiamondReaches(nodes, seed, pair)
  {
    var source, offset := pair.0, OffsetOf(nodes, pair);
    RotatedByOffset(nodes, pair);
    if offset >= 3 {
      FarUnrank(nodes, seed, source, offset);
    } else {
      FillersFit(nodes);
      NearUnrank(nodes, seed, source, offset);
    }
  }

  lemma FarUnrank(nodes: int, seed: int, source: int, offset: int)
    requires nodes >= 4 && 0 <= source < nodes && 3 <= offset < nodes
    requires OffsetOf(nodes, Rotated(source, offset, nodes)) == offset
    ensures DiamondReaches(nodes, seed, Rotated(source, offset, nodes))
  {
    var index := 2 * nodes + (offset - 3) * nodes + Mod(source - seed, nodes);
    Assembled(offset - 3, nodes - 3, nodes, seed, source);
    assert nodes * (nodes - 1) == 2 * nodes + nodes * (nodes - 3);
    FarPair(index, nodes, seed);
    FarRank(nodes, seed, Rotated(source, offset, nodes));
  }

  lemma FarRank(nodes: int, seed: int, pair: Pair)
    requires nodes >= 4 && OffsetOf(nodes, pair) >= 3
    ensures DiamondRank(nodes, seed, pair)
         == 2 * nodes + (OffsetOf(nodes, pair) - 3) * nodes + Mod(pair.0 - seed, nodes)
  {
  }

  lemma NearUnrank(nodes: int, seed: int, source: int, offset: int)
    requires nodes >= 4 && 0 <= source < nodes && 1 <= offset <= 2
    requires OffsetOf(nodes, Rotated(source, offset, nodes)) == offset
    ensures var pair := Rotated(source, offset, nodes);
            0 <= DiamondRank(nodes, seed, pair) < 2 * nodes && DiamondPair(DiamondRank(nodes, seed, pair), nodes, seed) == pair
  {
    var limit, place := MotifLimit(nodes), source % 4;
    if source < limit && (if offset == 1 then place in {0, 2} else place < 2) {
      MotifUnrank(nodes, seed, source, offset);
    } else {
      FillerUnrank(source, nodes, offset);
    }
  }

  lemma MotifUnrank(nodes: int, seed: int, source: int, offset: int)
    requires nodes >= 4 && 0 <= source < MotifLimit(nodes) && 1 <= offset <= 2
    requires if offset == 1 then source % 4 in {0, 2} else source % 4 < 2
    ensures var pair := Rotated(source, offset, nodes);
            var index := if offset == 2 then source / 4 * 4 + 1 + source % 4
                         else if source % 4 == 0 then source / 4 * 4 else source / 4 * 4 + 3;
            0 <= index < MotifLimit(nodes) && DiamondPair(index, nodes, seed) == pair
  {
    var group := source / 4;
    assert (group * 4 + 1) / 4 == (group * 4 + 2) / 4 == (group * 4 + 3) / 4 == group * 4 / 4 == group;
  }

  lemma FillerUnrank(source: int, nodes: int, offset: int)
    requires nodes >= 4 && 0 <= source < nodes && 1 <= offset <= 2
    requires source < MotifLimit(nodes) ==> if offset == 1 then source % 4 in {1, 3} else source % 4 >= 2
    ensures var limit := MotifLimit(nodes);
            var rank := FillerRank(source, limit, offset);
            0 <= rank < nodes - limit / 2 && FillerSource(rank, limit, offset) == source
  {
    var limit := MotifLimit(nodes);
    var rank := FillerRank(source, limit, offset);
    if source < limit {
      if offset == 1 {
        assert rank / 2 == source / 4 && rank % 2 == (source % 4 - 1) / 2;
        assert FillerSource(rank, limit, 1) == source;
      } else {
        assert rank / 2 == source / 4 && rank % 2 == source % 4 - 2;
        assert FillerSource(rank, limit, 2) == source;
      }
    }
  }

  // ----- the main results -----

  /** Below its limit every shape yields a covered pair from which the index can be recovered. */
  lemma RankOfPair(index: nat, nodes: int, d: Distribution, seed: int)
    requires nodes >= 2 && !d.Other? && index < Limit(nodes, d)
    ensures var r := PairAt(index, nodes, d, seed);
            r.Ok? && Covered(nodes, d, r.value) && Rank(nodes, d, seed, r.value) == index
  {
    match d {
      case HighFanIn => HighFanRoundTrip(index, nodes, true);
      case HighFanOut => HighFanRoundTrip(index, nodes, false);
      case Skewed =>
        if nodes < SKEW_THRESHOLD {
          ModularRoundTrip(index, nodes, d, seed);
        } else {
          SkewedRoundTrip(index, nodes);
        }
      case Diamond =>
        if nodes < 4 {
          ModularRoundTrip(index, nodes, d, seed);
        } else {
          DiamondRoundTrip(index, nodes, seed);
        }
      case _ => ModularRoundTrip(index, nodes, d, seed);
    }
  }

  /** Every covered pair is reached, at its rank. */
  lemma PairOfRank(nodes: int, d: Distribution, seed: int, pair: Pair)
    requires nodes >= 2 && !d.Other? && Covered(nodes, d, pair)
    ensures 0 <= Rank(nodes, d, seed, pair) < Limit(nodes, d)
    ensures PairAt(Rank(nodes, d, seed, pair), nodes, d, seed) == Ok(pair)
  {
    match d {
      case HighFanIn => HighFanUnrank(nodes, pair.1, pair.0, true);
      case HighFanOut => HighFanUnrank(nodes, pair.0, pair.1, false);
      case Skewed =>
        if nodes < SKEW_THRESHOLD {
          ModularUnrank(nodes, d, seed, pair);
        } else {
          SkewedUnrank(nodes, pair);
        }
      case Diamond =>
        if nodes < 4 {
          ModularUnrank(nodes, d, seed, pair);
        } else {
          DiamondUnrank(nodes, seed, pair);
        }
      case _ => ModularUnrank(nodes, d, seed, pair);
    }
  }

  ghost predicate AllDistinct(count: int, nodes: int, d: Distribution, seed: int) {
    forall i: nat, j: nat :: i < j < count ==> PairAt(i, nodes, d, seed) != PairAt(j, nodes, d, seed)
  }

  /**
   The docstring promises an injective pair for every index in the domain that `generate` admits.
   That holds exactly for the counts within the shape's limit.
  */
  lemma DistinctIffWithinLimit(count: int, nodes: int, d: Distribution, seed: int)
    requires nodes >= 2 && !d.Other? && 1 <= count <= nodes * (nodes - 1)
    ensures AllDistinct(count, nodes, d, seed) <==> count <= Limit(nodes, d)
  {
    if count <= Limit(nodes, d) {
      forall i: nat, j: nat | i < j < count
        ensures PairAt(i, nodes, d, seed) != PairAt(j, nodes, d, seed)
      {
        RankOfPair(i, nodes, d, seed);
        RankOfPair(j, nodes, d, seed);
      }
    } else {
      var i, j := FirstRepeat(nodes, d, seed);
    }
  }

  /** The first index past the limit of the three partial shapes repeats an earlier pair. */
  lemma FirstRepeat(nodes: int, d: Distribution, seed: int) returns (i: nat, j: nat)
    requires nodes >= 2 && !d.Other? && Limit(nodes, d) < nodes * (nodes - 1)
    ensures i < j == Limit(nodes, d) && PairAt(i, nodes, d, seed) == PairAt(j, nodes, d, seed)
  {
    j := Limit(nodes, d);
    if d.Skewed? {
      i := nodes - 1;
      SkewedRepeat(nodes);
    } else {
      i := 0;
      HighFanRepeat(nodes, d.HighFanIn?);
    }
  }

  lemma SkewedRepeat(nodes: int)
    requires nodes >= SKEW_THRESHOLD
    ensures nodes - 1 < Half(nodes)
    ensures SkewedPair(nodes - 1, nodes) == SkewedPair(Half(nodes), nodes) == (1, 2)
  {
    RowEnd(nodes);
    RowsIncrease(nodes, 2, nodes);
    assert RowStart(nodes, 1) == nodes - 1 && RowStart(nodes, 2) == 2 * nodes - 3;
    RowUnique(nodes, nodes - 1, 1, Row(nodes, nodes - 1));
    assert ColumnStart(1) == 0 && ColumnStart(2) == 1;
    assert ColumnFrom(0, 1) == 1;
  }

  lemma HighFanRepeat(nodes: int, inward: bool)
    requires nodes >= 2
    ensures Fan(nodes) * (nodes - 1) > 0
    ensures HighFanPair(0, nodes, inward) == HighFanPair(Fan(nodes) * (nodes - 1), nodes, inward)
  {
    var fan := Fan(nodes);
    assert fan * (nodes - 1) == (nodes - 1) * fan + 0;
    DivModUnique(nodes - 1, 0, fan);
    DivModUnique(1, 0, nodes - 1);
    ProductBound(0, nodes - 1, fan, 0);
  }
}
