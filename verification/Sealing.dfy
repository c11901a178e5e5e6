/** Which form the columns of a segment take when it is sealed, and which of them give up their plain storage. */
module Sealing {
  import opened Bytes
  import opened Wrappers
  import opened Table
  import opened Predicates
  import opened Lz4Block
  import Arithmetic
  import Bitmap

  datatype Kind = Plain | BitPacked | Dictionary | ForDelta | Lz4

  datatype Config = Config(enabled: bool, dictionary: bool, bitpack: bool, fordelta: bool, lz4: bool,
                           minRows: nat, minRatio: real)

  const DEFAULTS := Config(true, true, true, true, true, 4096, 1.1)

  /** The configuration, and the hash by which distinct values are estimated. */
  datatype Policy = Policy(config: Config, hash: nat -> int)

  // ---------- The statistics of a column ----------

  /** The numbers that are there, as a column's statistics see them. */
  function Present(t: FieldType, cells: seq<Cell>): seq<real> {
    if cells == [] then []
    else
      var last := cells[|cells| - 1];
      Present(t, cells[..|cells| - 1]) + if last.Number? && last.valid then [NumberOf(t, last.raw)] else []
  }

  /** The greatest number less the least one. */
  function Spread(xs: seq<real>): (r: real)
    requires xs != []
    ensures r >= 0.0
  {
    Highest(xs) - Lowest(xs)
  }

  function Lowest(xs: seq<real>): (m: real)
    requires xs != []
    ensures m in xs && forall x :: x in xs ==> m <= x
  {
    var last := xs[|xs| - 1];
    if |xs| == 1 then last
    else
      var m := Lowest(xs[..|xs| - 1]);
      assert forall x :: x in xs ==> x in xs[..|xs| - 1] || x == last;
      if last < m then last else m
  }

  function Highest(xs: seq<real>): (m: real)
    requires xs != []
    ensures m in xs && forall x :: x in xs ==> x <= m
  {
    var last := xs[|xs| - 1];
    if |xs| == 1 then last
    else
      var m := Highest(xs[..|xs| - 1]);
      assert forall x :: x in xs ==> x in xs[..|xs| - 1] || x == last;
      if last > m then last else m
  }

  const SAMPLES := 2048

  function Stride(n: nat): (k: nat)
    ensures k >= 1
  {
    if n > SAMPLES then n / SAMPLES else 1
  }

  /** The hashes of the values that are there in every `stride`-th row. */
  function Sampled(hash: nat -> int, cells: seq<Cell>, stride: nat): set<int>
    requires stride >= 1
  {
    set i | 0 <= i < |cells| && i % stride == 0 && cells[i].Number? && cells[i].valid :: hash(cells[i].raw)
  }

  /** The estimated number of distinct values; beyond one sample per row the sample is capped. */
  function Cardinality(hash: nat -> int, cells: seq<Cell>): nat {
    var n, k := |cells|, Stride(|cells|);
    var distinct := |Sampled(hash, cells, k)|;
    var sample := if k > 1 && distinct > SAMPLES then SAMPLES else distinct;
    if n == 0 then 0 else Scaled(sample, n, SampledRows(n, k))
  }

  /** A count among `m` of `n` rows, for all of them. */
  function Scaled(count: nat, n: nat, m: nat): nat
    requires m > 0
  {
    (count * n) / m
  }

  /** How many rows are looked at. */
  function SampledRows(n: nat, stride: nat): (m: nat)
    requires n > 0 && stride > 0
    ensures m > 0
  {
    Arithmetic.QuotientMonotone(stride, n + stride - 1, stride);
    Arithmetic.ExactQuotient(1, stride);
    (n + stride - 1) / stride
  }

  // ---------- The choice, and whether it pays ----------

  const DICTIONARY_LIMIT := 256
  const PACKED_LIMIT := 65535.0     // 16 bits
  const DELTA_LIMIT := 1048576.0    // 2^20

  /** ChooseCompression. A string column has no statistics and therefore stays plain. */
  function ChooseCompression(p: Policy, f: FieldVector): Kind {
    var present := Present(f.ftype, f.cells);
    if !p.config.enabled || |f.cells| < p.config.minRows || IsVarlen(f.ftype) || present == [] then Plain
    else if !f.ftype.Float64? && p.config.dictionary && 0 < Cardinality(p.hash, f.cells) <= DICTIONARY_LIMIT then Dictionary
    else if !f.ftype.Float64? && p.config.bitpack && Spread(present) < PACKED_LIMIT + 1.0 then BitPacked
    else if p.config.fordelta && Spread(present) <= DELTA_LIMIT then ForDelta
    else if p.config.lz4 then Lz4
    else Plain
  }

  /** ChooseBitWidth, up to 16 bits. */
  function BitWidth(range: nat): (bits: nat)
    ensures bits in {1, 2, 4, 8, 16}
    ensures bits < 16 || range <= 65535 ==> range < Bitmap.PowerOfTwo(bits)
    ensures forall b :: b in {1, 2, 4, 8} && b < bits ==> range >= Bitmap.PowerOfTwo(b)
  {
    assert Bitmap.PowerOfTwo(2) == 4 && Bitmap.PowerOfTwo(4) == 16 && Bitmap.PowerOfTwo(8) == 256 && Bitmap.PowerOfTwo(16) == 65536 by {
      SmallPowers();
    }
    if range <= 1 then 1 else if range <= 3 then 2 else if range <= 15 then 4 else if range <= 255 then 8 else 16
  }

  lemma SmallPowers()
    ensures Bitmap.PowerOfTwo(1) == 2 && Bitmap.PowerOfTwo(2) == 4 && Bitmap.PowerOfTwo(4) == 16 && Bitmap.PowerOfTwo(8) == 256 && Bitmap.PowerOfTwo(16) == 65536
  {
    assert Bitmap.PowerOfTwo(3) == 8 && Bitmap.PowerOfTwo(5) == 32 && Bitmap.PowerOfTwo(6) == 64 && Bitmap.PowerOfTwo(7) == 128;
    assert Bitmap.PowerOfTwo(9) == 512 && Bitmap.PowerOfTwo(10) == 1024 && Bitmap.PowerOfTwo(11) == 2048 && Bitmap.PowerOfTwo(12) == 4096;
    assert Bitmap.PowerOfTwo(13) == 8192 && Bitmap.PowerOfTwo(14) == 16384 && Bitmap.PowerOfTwo(15) == 32768;
  }

  /** The size of an LZ4 encoding. */
  function Lz4Size(n: nat): nat {
    if n == 0 then 0
    else
      var block := if n < BLOCK_SIZE then n else BLOCK_SIZE;
      |Header(block)| + block + Lz4Size(n - block)
  }

  lemma {:induction false} EncodedSize(data: seq<byte>)
    ensures |Encoded(data)| == Lz4Size(|data|)
  {
    hide Header;
    if data != [] {
      EncodedSize(data[if |data| < BLOCK_SIZE then |data| else BLOCK_SIZE..]);
    }
  }

  lemma {:induction false} Lz4IsLonger(n: nat)
    ensures n > 0 ==> Lz4Size(n) > n
  {
    hide Header;
    if n > BLOCK_SIZE {
      Lz4IsLonger(n - BLOCK_SIZE);
    }
  }

  /** The bytes of a column that is not compressed, without its bitmap. */
  function PlainBytes(f: FieldVector): nat { FieldBytes(f.(hasNulls := false)) }

  function BitmapBytes(f: FieldVector): nat { if f.hasNulls then 8 * ((|f.cells| + 63) / 64) else 0 }

  /** The distinct integers of a column. */
  function Entries(f: FieldVector): set<int> {
    set i | 0 <= i < |f.cells| && f.cells[i].Number? && f.cells[i].valid :: Signed(f.ftype, f.cells[i].raw)
  }

  /** The integers of a column from the least to the greatest. */
  function IntegerRange(f: FieldVector): nat {
    var present := Present(f.ftype, f.cells);
    if present == [] then 0 else Spread(present).Floor
  }

  /** What the encoders of BuildCompressionViews produce: values, header or dictionary, and the bitmap. */
  function PackedBytes(kind: Kind, f: FieldVector): nat {
    (match kind
     case Dictionary => 4 * |f.cells| + 8 + 8 * |Entries(f)|
     case BitPacked => (|f.cells| * BitWidth(IntegerRange(f)) + 7) / 8 + 16
     case ForDelta => if f.ftype.Float64? then PlainBytes(f) else 4 * |f.cells| + 8
     case Lz4 => Lz4Size(PlainBytes(f))
     case Plain => PlainBytes(f)) + BitmapBytes(f)
  }

  /** A form is kept if it is not longer than the plain one, and shorter by the ratio asked for. */
  predicate Pays(minRatio: real, plain: nat, packed: nat) {
    packed <= plain && (if packed == 0 then 0.0 else plain as real / packed as real) >= minRatio
  }

  /** The form that BuildCompressionViews leaves; dictionary columns are never packed again. */
  function KindOf(p: Policy, f: FieldVector): Kind {
    var kind := ChooseCompression(p, f);
    if kind.Plain? || (f.ftype.DictInt32? && !kind.Lz4?) then Plain
    else if Pays(p.config.minRatio, PlainBytes(f), PackedBytes(kind, f)) then kind
    else Plain
  }

  /** A column that is kept in another form gives up its plain storage. */
  predicate GivesUp(p: Policy, f: FieldVector) { !KindOf(p, f).Plain? }

  /** Without a ratio above 1 a float column could be kept in a form in which it cannot be read. */
  predicate Sensible(p: Policy) { p.config.minRatio > 1.0 }

  /**
   LZ4 is never kept: an encoding by literals alone is longer than what it
   encodes. No sealed segment has an LZ4 column, whatever the configuration.
   */
  lemma Lz4NeverKept(p: Policy, f: FieldVector)
    requires |f.cells| > 0
    ensures !KindOf(p, f).Lz4?
  {
    hide Present, Cardinality, Spread, Lz4Size, StoredBytes;
    if !IsVarlen(f.ftype) {
      Lz4IsLonger(PlainBytes(f));
    }
  }

  lemma PaysOnlyIfShorter(minRatio: real, plain: nat, packed: nat)
    requires Pays(minRatio, plain, packed) && minRatio > 1.0
    ensures packed < plain
  {
    if 0 < plain <= packed {
      AtMostOne(plain as real, packed as real);
    }
  }

  lemma AtMostOne(a: real, b: real)
    requires 0.0 <= a <= b && b > 0.0
    ensures a / b <= 1.0
  {
  }

  /** Only integers and bools are ever packed. */
  lemma OnlyIntegersArePacked(p: Policy, f: FieldVector)
    requires GivesUp(p, f) && Sensible(p) && |f.cells| > 0
    ensures IsInteger(f.ftype)
    ensures f.ftype.Int32? ==> KindOf(p, f).BitPacked?
    ensures f.ftype.Bool? ==> KindOf(p, f).BitPacked?
  {
    hide Present, Cardinality, Spread, Lz4Size, StoredBytes, IntegerRange, BitWidth, Entries, Pays;
    Lz4NeverKept(p, f);
    PaysOnlyIfShorter(p.config.minRatio, PlainBytes(f), PackedBytes(KindOf(p, f), f));
  }

  lemma RatioReached(plain: nat, packed: nat)
    requires packed > 0 && 10 * plain >= 11 * packed
    ensures Pays(1.1, plain, packed)
  {
    DividedBy(plain as real, packed as real);
  }

  lemma DividedBy(a: real, b: real)
    requires b > 0.0 && a >= 1.1 * b
    ensures a / b >= 1.1
  {
    var q := a / b;
    assert a == q * b;
    if q < 1.1 {
      Smaller(q, b);
    }
  }

  lemma Smaller(q: real, b: real)
    requires q < 1.1 && b > 0.0
    ensures q * b < 1.1 * b
  {
    assert (1.1 - q) * b > 0.0;
  }

  lemma PackedWidth(n: nat, w: nat)
    requires w in {1, 2, 4, 8, 16}
    ensures (n * w + 7) / 8 <= 2 * n
  {
  }

  /**
   What becomes by default of a long integer column with many values: within 16
   bits it is packed, an int64 column within 2^20 is kept as differences, and
   every other one stays as it is.
   */
  lemma DefaultChoiceExactly(f: FieldVector, hash: nat -> int)
    requires (f.ftype.Int32? || f.ftype.Int64?) && |f.cells| >= 4096
    requires Present(f.ftype, f.cells) != [] && Cardinality(hash, f.cells) > 256
    ensures var range := Spread(Present(f.ftype, f.cells));
            KindOf(Policy(DEFAULTS, hash), f) ==
            if range < 65536.0 then BitPacked
            else if f.ftype.Int64? && range <= 1048576.0 then ForDelta
            else Plain
  {
    hide Present, Cardinality, Spread, Lz4Size, StoredBytes, IntegerRange, BitWidth, Pays;
    var p, n := Policy(DEFAULTS, hash), |f.cells|;
    Lz4NeverKept(p, f);
    var kind := ChooseCompression(p, f);
    if kind.BitPacked? {
      PackedWidth(n, BitWidth(IntegerRange(f)));
      RatioReached(PlainBytes(f), PackedBytes(kind, f));
    } else if kind.ForDelta? {
      if f.ftype.Int64? {
        RatioReached(PlainBytes(f), PackedBytes(kind, f));
      } else {
        TooLong(1.1, PlainBytes(f), PackedBytes(kind, f));
      }
    }
  }

  lemma TooLong(minRatio: real, plain: nat, packed: nat)
    requires packed > plain
    ensures !Pays(minRatio, plain, packed)
  {
  }

  // ---------- Columns that give up their storage ----------

  /** `n` rows that all hold the number `raw`. */
  function Constant(t: FieldType, raw: nat, n: nat): FieldVector { FieldVector(t, seq(n, i => Number(true, raw)), false) }

  lemma {:induction false} ConstantPresent(t: FieldType, raw: nat, n: nat)
    ensures var xs := Present(t, seq(n, i => Number(true, raw)));
            |xs| == n && (forall x :: x in xs ==> x == NumberOf(t, raw)) && (n > 0 ==> Spread(xs) == 0.0)
  {
    hide NumberOf;
    var cells := seq(n, i => Number(true, raw));
    if n > 0 {
      ConstantPresent(t, raw, n - 1);
      assert cells[..n - 1] == seq(n - 1, i => Number(true, raw));
    }
  }

  /** One value in 4096 rows of an int64 column: by default it is kept as a dictionary. */
  lemma ConstantIsPacked(raw: nat, hash: nat -> int)
    ensures KindOf(Policy(DEFAULTS, hash), Constant(Int64, raw, 4096)) == Dictionary
  {
    hide Present, NumberOf, Spread;
    var f, p := Constant(Int64, raw, 4096), Policy(DEFAULTS, hash);
    ConstantPresent(Int64, raw, 4096);
    assert f.cells[0] == Number(true, raw);
    assert Sampled(hash, f.cells, 2) == {hash(raw)};
    assert Entries(f) == {Signed(Int64, raw)};
    assert Cardinality(hash, f.cells) == 2;
  }

  /** The numbers 0 to n - 1. */
  function Counting(n: nat): FieldVector { FieldVector(Int32, seq(n, i requires 0 <= i < n => Number(true, i)), false) }

  lemma {:induction false} CountingPresent(n: nat)
    requires n <= 4096
    ensures var xs := Present(Int32, Counting(n).cells);
            |xs| == n && (forall i :: 0 <= i < n ==> xs[i] == i as real)
  {
    if n > 0 {
      CountingPresent(n - 1);
      assert Counting(n).cells[..n - 1] == Counting(n - 1).cells;
    }
  }

  lemma {:induction false} DistinctHashes(hash: nat -> int, n: nat)
    requires forall a, b :: hash(a) == hash(b) ==> a == b
    ensures |set i | 0 <= i < n :: hash(2 * i)| == n
  {
    var s := set i | 0 <= i < n :: hash(2 * i);
    if n > 0 {
      DistinctHashes(hash, n - 1);
      var front := set i | 0 <= i < n - 1 :: hash(2 * i);
      assert s == front + {hash(2 * (n - 1))};
      assert hash(2 * (n - 1)) !in front;
    }
  }

  lemma CountingSpread(n: nat)
    requires 0 < n <= 4096
    ensures Present(Int32, Counting(n).cells) != [] && Spread(Present(Int32, Counting(n).cells)) == (n - 1) as real
  {
    hide Present, Lowest, Highest;
    CountingPresent(n);
    var xs := Present(Int32, Counting(n).cells);
    assert xs[0] in xs && xs[n - 1] in xs;
    assert forall x :: x in xs ==> 0.0 <= x <= (n - 1) as real;
  }

  lemma CountingSampled(hash: nat -> int, n: nat)
    requires forall a, b :: hash(a) == hash(b) ==> a == b
    ensures |Sampled(hash, Counting(2 * n).cells, 2)| == n
  {
    DistinctHashes(hash, n);
    var cells, s := Counting(2 * n).cells, set i | 0 <= i < n :: hash(2 * i);
    forall i | 0 <= i < n
      ensures hash(2 * i) in Sampled(hash, cells, 2)
    {
      assert cells[2 * i] == Number(true, 2 * i);
    }
    forall i | 0 <= i < 2 * n && i % 2 == 0
      ensures hash(cells[i].raw) in s
    {
      assert cells[i].raw == 2 * (i / 2);
    }
    assert Sampled(hash, cells, 2) == s;
  }

  /** The numbers 0 to 4095 in an int32 column: by default they are packed into 16 bits, if no hashes collide. */
  lemma CountingIsPacked(hash: nat -> int)
    requires forall a, b :: hash(a) == hash(b) ==> a == b
    ensures KindOf(Policy(DEFAULTS, hash), Counting(4096)) == BitPacked
  {
    hide Present, Spread, Sampled, Counting;
    var f := Counting(4096);
    CountingSpread(4096);
    CountingSampled(hash, 2048);
    CountingColumn(4096);
    assert Cardinality(hash, f.cells) == 4096;
  }

  lemma CountingColumn(n: nat)
    ensures Counting(n).ftype == Int32 && |Counting(n).cells| == n && !Counting(n).hasNulls
  {
  }

  /** With a ratio of 1 a float column can be kept as deltas, although nothing was encoded. */
  lemma FloatKeptAtRatioOne(raw: nat, hash: nat -> int)
    requires Exponent(raw) != 2047
    ensures KindOf(Policy(DEFAULTS.(minRatio := 1.0), hash), Constant(Float64, raw, 4096)) == ForDelta
  {
    hide Present, NumberOf, Spread;
    ConstantPresent(Float64, raw, 4096);
  }
}
