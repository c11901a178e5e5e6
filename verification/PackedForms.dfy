/**
 The forms in which an integer column gives up its plain storage: a dictionary,
 bits packed from the least value on, and differences from the least value.
 */
module PackedForms {
  import opened Bytes
  import opened Wrappers
  import opened Table
  import opened Predicates
  import opened Sealing
  import opened BitPacking
  import Bitmap
  import Arithmetic

  datatype Form =
    | DictForm(ids: seq<nat>, values: seq<int>)
    | BitForm(base: int, bits: nat, data: seq<byte>)
    | DeltaForm(base: int, deltas: seq<nat>)

  /** An integer column. */
  predicate Integral(f: FieldVector) {
    IsInteger(f.ftype) && forall i :: 0 <= i < |f.cells| ==> f.cells[i].Number?
  }

  function IntAt(f: FieldVector, i: nat): int
    requires Integral(f) && i < |f.cells|
  {
    Signed(f.ftype, f.cells[i].raw)
  }

  /** What the encoders take for a row: 0 for a null. */
  function TakenAt(f: FieldVector, i: nat): int
    requires Integral(f) && i < |f.cells|
  {
    if f.cells[i].valid then IntAt(f, i) else 0
  }

  /** The value of a row that is there, read from the form. */
  function ReadInt(form: Form, i: nat): Option<int> {
    match form
    case DictForm(ids, values) => if i < |ids| && ids[i] < |values| then Some(values[ids[i]]) else None
    case BitForm(base, bits, data) =>
      Arithmetic.NonNegative(bits, i);
      if i * bits + bits <= 8 * |data| then Some(base + BitsOf(data, i * bits, bits)) else None
    case DeltaForm(base, deltas) => if i < |deltas| then Some(base + deltas[i]) else None
  }

  /** ReadInt64Value. */
  method ReadInt64Value(form: Form, i: nat) returns (value: Option<int>)
    ensures value == ReadInt(form, i)
  {
    match form {
      case DictForm(ids, values) =>
        if i >= |ids| || ids[i] >= |values| {
          return None;
        }
        return Some(values[ids[i]]);
      case BitForm(base, bits, data) =>
        Arithmetic.NonNegative(bits, i);
        if i * bits + bits > 8 * |data| {
          return None;
        }
        var delta := ReadBits(data, i * bits, bits);
        return Some(base + delta);
      case DeltaForm(base, deltas) =>
        if i >= |deltas| {
          return None;
        }
        return Some(base + deltas[i]);
    }
  }

  /** Every value that is there can be read from the form. */
  ghost predicate Shows(form: Form, f: FieldVector)
    requires Integral(f)
  {
    forall i: nat :: i < |f.cells| && f.cells[i].valid ==> ReadInt(form, i) == Some(IntAt(f, i))
  }

  /** The bytes of values and header. */
  function FormBytes(form: Form): nat {
    match form
    case DictForm(ids, values) => 4 * |ids| + 8 + 8 * |values|
    case BitForm(base, bits, data) => |data| + 16
    case DeltaForm(base, deltas) => 4 * |deltas| + 8
  }

  // ---------- The dictionary ----------

  predicate Distinct(values: seq<int>) { forall i, j :: 0 <= i < j < |values| ==> values[i] != values[j] }

  lemma {:induction false} DistinctCount(values: seq<int>, s: set<int>)
    requires Distinct(values) && forall v :: v in s <==> v in values
    ensures |s| == |values|
  {
    if values == [] {
      assert forall v :: v !in s;
    } else {
      var front, last := values[..|values| - 1], values[|values| - 1];
      assert forall v :: v in values <==> v in front || v == last;
      DistinctCount(front, s - {last});
    }
  }

  /** The ids under which the dictionary has its values. */
  ghost predicate Indexes(ids: map<int, nat>, values: seq<int>) {
    && Distinct(values) && (forall v :: v in ids <==> v in values)
    && forall v :: v in ids ==> ids[v] < |values| && values[ids[v]] == v
  }

  lemma IndexesMore(ids: map<int, nat>, values: seq<int>, v: int)
    requires Indexes(ids, values) && v !in ids
    ensures Indexes(ids[v := |values|], values + [v])
  {
    var more := values + [v];
    forall x
      ensures x in more <==> x in values || x == v
    {
      if x == v {
        assert more[|values|] == v;
      }
    }
  }

  method EncodeDictionary(f: FieldVector) returns (form: Form)
    requires Integral(f)
    ensures form.DictForm? && |form.ids| == |f.cells| && Distinct(form.values) && |form.values| == |Entries(f)|
    ensures Shows(form, f)
  {
    hide Indexes, Signed;
    var ids: map<int, nat>, values: seq<int>, out: seq<nat> := map[], [], [];
    assert Indexes(ids, values) by {
      NothingIndexed();
    }
    for i := 0 to |f.cells|
      invariant |out| == i && Indexes(ids, values)
      invariant forall v :: v in ids ==> v in Entries(f)
      invariant forall j: nat :: j < i && f.cells[j].valid ==> IntAt(f, j) in ids && out[j] == ids[IntAt(f, j)]
    {
      if !f.cells[i].valid {
        out := out + [0];
      } else {
        var value := IntAt(f, i);
        assert value in Entries(f);
        if value !in ids {
          IndexesMore(ids, values, value);
          ids, values := ids[value := |values|], values + [value];
        }
        out := out + [ids[value]];
      }
    }
    form := DictForm(out, values);
    IndexedShows(f, ids, out, values);
  }

  lemma NothingIndexed()
    ensures Indexes(map[], [])
  {
  }

  lemma IndexedShows(f: FieldVector, ids: map<int, nat>, out: seq<nat>, values: seq<int>)
    requires Integral(f) && Indexes(ids, values) && |out| == |f.cells| && forall v :: v in ids ==> v in Entries(f)
    requires forall j: nat :: j < |f.cells| && f.cells[j].valid ==> IntAt(f, j) in ids && out[j] == ids[IntAt(f, j)]
    ensures Distinct(values) && |values| == |Entries(f)| && Shows(DictForm(out, values), f)
  {
    hide Signed;
    forall v
      ensures v in Entries(f) <==> v in values
    {
      if v in Entries(f) {
        var i :| 0 <= i < |f.cells| && f.cells[i].valid && v == Signed(f.ftype, f.cells[i].raw);
        assert IntAt(f, i) in ids;
      }
    }
    DistinctCount(values, Entries(f));
  }

  // ---------- The least and the greatest value ----------

  /** The loops of the encoders that look for the least and the greatest value; both are 0 in a column of nulls. */
  method Extremes(f: FieldVector) returns (low: int, high: int)
    requires Integral(f)
    ensures high - low == IntegerRange(f)
    ensures forall i: nat :: i < |f.cells| && f.cells[i].valid ==> low <= IntAt(f, i) <= high
  {
    hide Lowest, Highest, Signed;
    low, high := 0, 0;
    var hasValue := false;
    for i := 0 to |f.cells|
      invariant hasValue <==> Present(f.ftype, f.cells[..i]) != []
      invariant hasValue ==> low as real == Lowest(Present(f.ftype, f.cells[..i])) &&
                             high as real == Highest(Present(f.ftype, f.cells[..i]))
      invariant !hasValue ==> low == 0 == high
      invariant forall j: nat :: j < i && f.cells[j].valid ==> hasValue && low <= IntAt(f, j) <= high
    {
      ghost var before := Present(f.ftype, f.cells[..i]);
      assert f.cells[..i + 1][..i] == f.cells[..i];
      if f.cells[i].valid {
        var value := IntAt(f, i);
        ExtremesMore(before, value as real);
        if !hasValue {
          low, high, hasValue := value, value, true;
        } else {
          low := if value < low then value else low;
          high := if value > high then value else high;
        }
      } else {
        assert before + [] == before;
      }
    }
    assert f.cells[..|f.cells|] == f.cells;
    FloorOfDifference(low, high);
  }

  lemma FloorOfDifference(low: int, high: int)
    ensures (high as real - low as real).Floor == high - low
  {
    assert high as real - low as real == (high - low) as real;
  }

  lemma ExtremesMore(xs: seq<real>, x: real)
    ensures var ys := xs + [x];
            && (xs == [] ==> Lowest(ys) == x == Highest(ys))
            && (xs != [] ==> Lowest(ys) == (if x < Lowest(xs) then x else Lowest(xs)) &&
                             Highest(ys) == (if x > Highest(xs) then x else Highest(xs)))
  {
    assert (xs + [x])[..|xs|] == xs;
  }

  // ---------- Differences ----------

  const WORD := 0x1_0000_0000

  method EncodeForDelta(f: FieldVector) returns (form: Form)
    requires Integral(f)
    ensures form.DeltaForm? && |form.deltas| == |f.cells|
    ensures forall i: nat :: i < |f.cells| ==> form.deltas[i] == (TakenAt(f, i) - form.base) % WORD
    ensures IntegerRange(f) < WORD ==> Shows(form, f)
  {
    hide Signed, IntegerRange;
    var low, high := Extremes(f);
    var deltas := [];
    for i := 0 to |f.cells|
      invariant |deltas| == i && forall j: nat :: j < i ==> deltas[j] == (TakenAt(f, j) - low) % WORD
    {
      deltas := deltas + [(TakenAt(f, i) - low) % WORD];
    }
    form := DeltaForm(low, deltas);
  }

  // ---------- Packed bits ----------

  /** The bits that are written for a row. */
  function DeltaAt(f: FieldVector, low: int, i: nat): nat
    requires Integral(f) && i < |f.cells|
  {
    (TakenAt(f, i) - low) % 0x1_0000_0000_0000_0000
  }

  /** The first `n` rows are in their places. */
  ghost predicate Filled(data: seq<byte>, f: FieldVector, low: int, bits: nat, n: nat)
    requires Integral(f) && n <= |f.cells|
  {
    forall j: nat :: j < n ==>
      0 <= j * bits && j * bits + bits <= 8 * |data| && BitsOf(data, j * bits, bits) == DeltaAt(f, low, j) % Bitmap.PowerOfTwo(bits)
  }

  lemma PlaceOf(i: nat, j: nat, bits: nat)
    requires i < j
    ensures 0 <= i * bits <= i * bits + bits <= j * bits
  {
    Arithmetic.NonNegative(bits, i);
    Arithmetic.Distribute(bits, i, -1);
    Arithmetic.ProductMonotone(bits, i + 1, j);
  }

  method EncodeBitpack(f: FieldVector) returns (form: Form)
    requires Integral(f)
    ensures form.BitForm? && form.bits == BitWidth(IntegerRange(f)) && |form.data| == (|f.cells| * form.bits + 7) / 8
    ensures Filled(form.data, f, form.base, form.bits, |f.cells|)
    ensures IntegerRange(f) < Bitmap.PowerOfTwo(form.bits) ==> Shows(form, f)
  {
    hide Signed, IntegerRange, BitWidth, Filled, Wrote;
    var n := |f.cells|;
    var low, high := Extremes(f);
    var bits := BitWidth(high - low);
    Arithmetic.NonNegative(bits, n);
    var data := new byte[(n * bits + 7) / 8](_ => 0);
    assert Filled(data[..], f, low, bits, 0) by {
      NothingFilled(data[..], f, low, bits);
    }
    for i := 0 to n
      invariant Filled(data[..], f, low, bits, i)
    {
      PlaceOf(i, n, bits);
      ghost var before := data[..];
      WriteBits(data, i * bits, DeltaAt(f, low, i), bits);
      FilledMore(before, data[..], f, low, bits, i);
    }
    form := BitForm(low, bits, data[..]);
    FilledShows(form, f);
  }

  lemma NothingFilled(data: seq<byte>, f: FieldVector, low: int, bits: nat)
    requires Integral(f)
    ensures Filled(data, f, low, bits, 0)
  {
  }

  lemma FilledMore(before: seq<byte>, after: seq<byte>, f: FieldVector, low: int, bits: nat, i: nat)
    requires Integral(f) && i < |f.cells| && Filled(before, f, low, bits, i) && |before| == |after|
    requires 0 <= i * bits && i * bits + bits <= 8 * |after|
    requires Wrote(before, after, i * bits, DeltaAt(f, low, i), bits)
    ensures Filled(after, f, low, bits, i + 1)
  {
    hide Wrote, BitsOf, DeltaAt;
    forall j: nat | j < i + 1
      ensures 0 <= j * bits && j * bits + bits <= 8 * |after|
      ensures BitsOf(after, j * bits, bits) == DeltaAt(f, low, j) % Bitmap.PowerOfTwo(bits)
    {
      if j < i {
        PlaceOf(j, i, bits);
        OtherNumbersStay(before, after, i * bits, DeltaAt(f, low, i), bits, j * bits, bits);
      } else {
        WrittenIsRead(before, after, i * bits, DeltaAt(f, low, i), bits);
      }
    }
  }

  lemma FilledShows(form: Form, f: FieldVector)
    requires Integral(f) && form.BitForm? && Filled(form.data, f, form.base, form.bits, |f.cells|)
    requires forall i: nat :: i < |f.cells| && f.cells[i].valid ==> form.base <= IntAt(f, i) <= form.base + IntegerRange(f)
    requires form.bits <= 16
    ensures IntegerRange(f) < Bitmap.PowerOfTwo(form.bits) ==> Shows(form, f)
  {
    hide Signed, IntegerRange, BitsOf;
    if IntegerRange(f) < Bitmap.PowerOfTwo(form.bits) {
      forall i: nat | i < |f.cells| && f.cells[i].valid
        ensures ReadInt(form, i) == Some(IntAt(f, i))
      {
        PowersBelow(form.bits);
        SmallDelta(IntAt(f, i) - form.base, Bitmap.PowerOfTwo(form.bits));
        assert DeltaAt(f, form.base, i) % Bitmap.PowerOfTwo(form.bits) == IntAt(f, i) - form.base;
      }
    }
  }

  lemma SmallDelta(delta: nat, p: nat)
    requires delta < p <= 65536
    ensures (delta % 0x1_0000_0000_0000_0000) % p == delta
  {
    Arithmetic.SmallModulus(delta, 0x1_0000_0000_0000_0000);
    Arithmetic.SmallModulus(delta, p);
  }

  lemma PowersBelow(bits: nat)
    requires bits <= 16
    ensures Bitmap.PowerOfTwo(bits) <= 65536
    decreases 16 - bits
  {
    if bits < 16 {
      PowersBelow(bits + 1);
    } else {
      SmallPowers();
    }
  }

  // ---------- The column of a sealed segment ----------

  /**
   BuildCompressionViews for an integer column: the form that is kept, if any.
   It is kept exactly when the column gives up its plain storage, it has the size
   that the choice went by, and every value that is there can be read from it.
   */
  method BuildView(p: Policy, f: FieldVector) returns (kept: Option<Form>)
    requires Integral(f) && f.cells != []
    ensures kept.Some? <==> GivesUp(p, f)
    ensures kept.Some? ==> Shows(kept.value, f) && FormBytes(kept.value) + BitmapBytes(f) == PackedBytes(KindOf(p, f), f)
    ensures kept.Some? ==> match KindOf(p, f)
                           case Dictionary => kept.value.DictForm?
                           case BitPacked => kept.value.BitForm?
                           case ForDelta => kept.value.DeltaForm?
                           case _ => false
  {
    hide Present, Spread, Cardinality, Signed, Entries, Pays, Shows, Lz4Size, StoredBytes;
    Lz4NeverKept(p, f);
    ChosenRanges(p, f);
    var form;
    match ChooseCompression(p, f) {
      case Dictionary => form := EncodeDictionary(f);
      case BitPacked => form := EncodeBitpack(f);
      case ForDelta => form := EncodeForDelta(f);
      case _ => return None;
    }
    if Pays(p.config.minRatio, PlainBytes(f), FormBytes(form) + BitmapBytes(f)) {
      return Some(form);
    }
    return None;
  }

  /** The range of the values fits the form that is chosen for them. */
  lemma ChosenRanges(p: Policy, f: FieldVector)
    requires Integral(f)
    ensures ChooseCompression(p, f).BitPacked? ==> IntegerRange(f) < Bitmap.PowerOfTwo(BitWidth(IntegerRange(f)))
    ensures ChooseCompression(p, f).ForDelta? ==> IntegerRange(f) < WORD
  {
    hide Present, Spread, Cardinality;
    SmallPowers();
  }

  // ---------- Predicates on the forms ----------

  /** Row `r` is there and compares. */
  predicate Hits(f: FieldVector, r: nat, op: CompareOp, n: int)
    requires Integral(f) && r < |f.cells|
  {
    f.cells[r].valid && CompareInt(IntAt(f, r), n, op)
  }

  lemma HitsSatisfy(f: FieldVector, r: nat, op: CompareOp, c: real, n: int)
    requires Integral(f) && r < |f.cells|
    ensures Hits(f, r, op, n) <==> SatisfiesConverted(ValueOf(f.cells[r]), f.ftype, op, c, n)
  {
  }

  /** ScanPredicateDictionary: `==` and `!=` look the constant up once and then compare ids. */
  method ScanDictionary(form: Form, f: FieldVector, op: CompareOp, n: int) returns (mask: seq<bool>)
    requires Integral(f) && form.DictForm? && |form.ids| == |f.cells| && Distinct(form.values) && Shows(form, f)
    ensures |mask| == |f.cells| && forall r: nat :: r < |f.cells| ==> (mask[r] <==> Hits(f, r, op, n))
  {
    hide Signed;
    var matchId, hasId := 0, false;
    if op in {Eq, Ne} {
      for i := 0 to |form.values|
        invariant !hasId && n !in form.values[..i]
      {
        if form.values[i] == n {
          matchId, hasId := i, true;
          break;
        }
      }
    }
    mask := [];
    for r := 0 to |f.cells|
      invariant |mask| == r && forall j: nat :: j < r ==> (mask[j] <==> Hits(f, j, op, n))
    {
      var keep := false;
      if f.cells[r].valid {
        assert ReadInt(form, r) == Some(IntAt(f, r));
        if op in {Eq, Ne} && !hasId {
          keep := op == Ne;
        } else if op in {Eq, Ne} {
          keep := if op == Eq then form.ids[r] == matchId else form.ids[r] != matchId;
        } else {
          keep := CompareInt(form.values[form.ids[r]], n, op);
        }
      }
      mask := mask + [keep];
    }
  }

  /** ScanPredicateBitpack, with its shortcuts for some widths. */
  method ScanBits(form: Form, f: FieldVector, op: CompareOp, n: int) returns (mask: seq<bool>)
    requires Integral(f) && form.BitForm? && Shows(form, f)
    requires forall r: nat :: r < |f.cells| ==> 0 <= r * form.bits && r * form.bits + form.bits <= 8 * |form.data|
    ensures |mask| == |f.cells| && forall r: nat :: r < |f.cells| ==> (mask[r] <==> Hits(f, r, op, n))
  {
    hide Signed, BitsOf;
    mask := [];
    for r := 0 to |f.cells|
      invariant |mask| == r && forall j: nat :: j < r ==> (mask[j] <==> Hits(f, j, op, n))
    {
      var keep := false;
      if f.cells[r].valid {
        assert ReadInt(form, r) == Some(IntAt(f, r));
        var delta := ReadDelta(form.data, r, form.bits);
        keep := CompareInt(form.base + delta, n, op);
      }
      mask := mask + [keep];
    }
  }

  /** The difference of a row, by the shortcut if there is one for the width. */
  method ReadDelta(data: seq<byte>, r: nat, bits: nat) returns (delta: nat)
    requires 0 <= r * bits && r * bits + bits <= 8 * |data|
    ensures delta == BitsOf(data, r * bits, bits)
  {
    hide ReadFast, BitsOf;
    if bits in {4, 8, 16} {
      NextPlace(r, bits);
      ReadFastAgrees(data, r, bits);
      return ReadFast(data, r, bits);
    }
    delta := ReadBits(data, r * bits, bits);
  }

  lemma NextPlace(r: nat, bits: nat)
    ensures (r + 1) * bits == r * bits + bits
  {
  }
}
