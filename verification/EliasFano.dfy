/** The Elias-Fano compressed set: `append`, `Lookup`, `Find` and the iterator, in 64-bit arithmetic. */
module EliasFano {

  const WORD: nat := 0x1_0000_0000_0000_0000

  /** Unsigned 64-bit wrap-around. */
  function Wrap(x: int): nat {
    x % WORD
  }

  /** `x << k`, `x >> k`, and the `k` low bits of `x`. */
  function Shl(x: nat, k: nat): nat {
    if k == 0 then x else 2 * Shl(x, k - 1)
  }

  function Shr(x: nat, k: nat): nat {
    if k == 0 then x else Shr(x / 2, k - 1)
  }

  function Low(x: nat, k: nat): nat {
    if k == 0 then 0 else 2 * Low(x / 2, k - 1) + x % 2
  }

  function Bit(x: nat, k: nat): bool {
    Shr(x, k) % 2 == 1
  }

  // ----- Bit sets: a bit beyond the length reads as unset -----

  function Test(bits: seq<bool>, i: nat): bool {
    i < |bits| && bits[i]
  }

  /** Setting a bit extends the set as far as needed; clearing one does not. */
  function SetTo(bits: seq<bool>, i: nat, b: bool): (r: seq<bool>)
    ensures |r| >= |bits| && forall k: nat :: Test(r, k) == if k == i then b else Test(bits, k)
    ensures |r| == if b && i >= |bits| then i + 1 else |bits|
  {
    if i < |bits| then bits[i := b] else if b then bits + seq(i - |bits|, _ => false) + [true] else bits
  }

  /** How many bits are set before position `n`. */
  function Rank(bits: seq<bool>, n: nat): nat
    requires n <= |bits|
  {
    if n == 0 then 0 else Rank(bits, n - 1) + if bits[n - 1] then 1 else 0
  }

  /** The position of the set bit of rank `index`, or the length if there is none. */
  function SelectBit(bits: seq<bool>, index: nat): (r: nat)
    ensures r <= |bits|
  {
    SelectFrom(bits, index, 0)
  }

  function SelectFrom(bits: seq<bool>, index: nat, n: nat): (r: nat)
    requires n <= |bits|
    ensures n <= r <= |bits|
    decreases |bits| - n
  {
    if n == |bits| then n
    else if !bits[n] then SelectFrom(bits, index, n + 1)
    else if index == 0 then n
    else SelectFrom(bits, index - 1, n + 1)
  }

  /** The number read from `n` bits after position `start`, most significant bit first. */
  function ReadBits(bits: seq<bool>, start: nat, n: nat): nat {
    if n == 0 then 0 else 2 * ReadBits(bits, start, n - 1) + if Test(bits, start + n) then 1 else 0
  }

  lemma {:induction false} SelectIs(bits: seq<bool>, n: nat, pos: nat)
    requires n <= pos < |bits| && bits[pos]
    ensures Rank(bits, n) <= Rank(bits, pos)
    ensures SelectFrom(bits, Rank(bits, pos) - Rank(bits, n), n) == pos
    decreases pos - n
  {
    if n < pos {
      SelectIs(bits, n + 1, pos);
    }
  }

  // ----- Representing a sequence -----

  function Upper(v: nat, min: nat, width: nat): nat {
    if v < min then 0 else Shr(v - min, width)
  }

  function Lower(v: nat, min: nat, width: nat): nat {
    if v < min then 0 else Low(v - min, width)
  }

  /** Where the lower bits of entry `i` begin: `i * width`. */
  function Offset(i: nat, width: nat): nat {
    if i == 0 then 0 else Offset(i - 1, width) + width
  }

  /** Where the unary part of entry `i` ends. */
  function Position(values: seq<nat>, min: nat, width: nat, i: nat): nat
    requires i < |values|
  {
    Upper(values[i], min, width) + i + 1
  }

  ghost predicate UpperFits(bits: seq<bool>, values: seq<nat>, min: nat, width: nat) {
    && (forall i :: 0 <= i < |values| ==> Test(bits, Position(values, min, width, i)))
    && (forall x: nat :: Test(bits, x) ==> exists i :: 0 <= i < |values| && x == Position(values, min, width, i))
  }

  ghost predicate BitFits(bits: seq<bool>, v: nat, min: nat, width: nat, i: nat, b: nat)
    requires b < width
  {
    Test(bits, Offset(i, width) + b + 1) == Bit(Lower(v, min, width), width - 1 - b)
  }

  ghost predicate EntryFits(bits: seq<bool>, v: nat, min: nat, width: nat, i: nat) {
    forall b: nat :: b < width ==> BitFits(bits, v, min, width, i, b)
  }

  ghost predicate LowerFits(bits: seq<bool>, values: seq<nat>, min: nat, width: nat) {
    forall i :: 0 <= i < |values| ==> EntryFits(bits, values[i], min, width, i)
  }

  ghost predicate NonDecreasing(values: seq<nat>) {
    forall i, j :: 0 <= i < j < |values| ==> values[i] <= values[j]
  }

  // ----- Arithmetic -----

  lemma {:induction false} SplitJoin(x: nat, k: nat)
    ensures Shl(Shr(x, k), k) + Low(x, k) == x
  {
    if k > 0 {
      SplitJoin(x / 2, k - 1);
    }
  }

  lemma {:induction false} ShrStep(x: nat, k: nat)
    ensures Shr(x, k + 1) == Shr(x, k) / 2
  {
    if k > 0 {
      ShrStep(x / 2, k - 1);
    }
  }

  lemma {:induction false} LowIsLow(x: nat, k: nat)
    ensures Shr(Low(x, k), k) == 0
  {
    if k > 0 {
      LowIsLow(x / 2, k - 1);
      assert Low(x, k) / 2 == Low(x / 2, k - 1);
    }
  }

  lemma {:induction false} ShrMonotone(x: nat, y: nat, k: nat)
    requires x <= y
    ensures Shr(x, k) <= Shr(y, k)
  {
    if k > 0 {
      ShrMonotone(x / 2, y / 2, k - 1);
    }
  }

  lemma {:induction false} OffsetIs(i: nat, width: nat)
    ensures Offset(i, width) == i * width
  {
    if i > 0 {
      OffsetIs(i - 1, width);
      assert i * width == (i - 1) * width + width;
    }
  }

  lemma {:induction false} OffsetMonotone(i: nat, j: nat, width: nat)
    requires i < j
    ensures Offset(i, width) + width <= Offset(j, width)
  {
    if i < j - 1 {
      OffsetMonotone(i, j - 1, width);
    }
  }

  // ----- The upper bits -----

  lemma UpperMonotone(values: seq<nat>, min: nat, width: nat, i: nat, j: nat)
    requires NonDecreasing(values) && i < j < |values| && min <= values[0]
    ensures Upper(values[i], min, width) <= Upper(values[j], min, width)
    ensures Position(values, min, width, i) < Position(values, min, width, j)
  {
    ShrMonotone(values[i] - min, values[j] - min, width);
  }

  /** Exactly `i` unary ends lie before any position between the ends of entries `i - 1` and `i`. */
  lemma {:induction false} RankBetween(bits: seq<bool>, values: seq<nat>, min: nat, width: nat, n: nat, i: nat)
    requires UpperFits(bits, values, min, width) && NonDecreasing(values) && (values != [] ==> min <= values[0])
    requires n <= |bits| && i <= |values|
    requires i > 0 ==> Position(values, min, width, i - 1) < n
    requires i < |values| ==> n <= Position(values, min, width, i)
    ensures Rank(bits, n) == i
    decreases n
  {
    hide Position;
    if n == 0 {
    } else if bits[n - 1] {
      assert Test(bits, n - 1);
      var k :| 0 <= k < |values| && n - 1 == Position(values, min, width, k);
      EndIsLast(values, min, width, n, i, k);
      if i > 1 {
        UpperMonotone(values, min, width, i - 2, i - 1);
      }
      RankBetween(bits, values, min, width, n - 1, i - 1);
    } else {
      assert i > 0 ==> Position(values, min, width, i - 1) != n - 1;
      RankBetween(bits, values, min, width, n - 1, i);
    }
  }

  lemma EndIsLast(values: seq<nat>, min: nat, width: nat, n: nat, i: nat, k: nat)
    requires NonDecreasing(values) && k < |values| && min <= values[0] && i <= |values| && n > 0
    requires n - 1 == Position(values, min, width, k)
    requires i > 0 ==> Position(values, min, width, i - 1) < n
    requires i < |values| ==> n <= Position(values, min, width, i)
    ensures i == k + 1
  {
    hide Position;
    if k < i - 1 {
      UpperMonotone(values, min, width, k, i - 1);
    } else if k > i {
      UpperMonotone(values, min, width, i, k);
    }
  }

  lemma SelectPosition(bits: seq<bool>, values: seq<nat>, min: nat, width: nat, i: nat)
    requires UpperFits(bits, values, min, width) && NonDecreasing(values) && i < |values| && min <= values[0]
    ensures SelectBit(bits, i) == Position(values, min, width, i)
  {
    hide Position;
    var pos := Position(values, min, width, i);
    assert Test(bits, pos);
    if i > 0 {
      UpperMonotone(values, min, width, i - 1, i);
    }
    RankBetween(bits, values, min, width, pos, i);
    SelectIs(bits, 0, pos);
  }

  // ----- The lower bits -----

  lemma {:induction false} ReadPrefix(bits: seq<bool>, v: nat, min: nat, width: nat, i: nat, n: nat)
    requires EntryFits(bits, v, min, width, i) && n <= width && min <= v
    ensures ReadBits(bits, Offset(i, width), n) == Shr(Lower(v, min, width), width - n)
  {
    hide Lower;
    var low := Lower(v, min, width);
    if n == 0 {
      assert Shr(low, width) == 0 by { LowerIsLow(v, min, width); }
    } else {
      ReadPrefix(bits, v, min, width, i, n - 1);
      ShrStep(low, width - n);
      assert BitFits(bits, v, min, width, i, n - 1);
    }
  }

  lemma LowerIsLow(v: nat, min: nat, width: nat)
    requires min <= v
    ensures Shr(Lower(v, min, width), width) == 0
  {
    LowIsLow(v - min, width);
  }

  /** Reading an entry back: upper and lower parts make the value again. */
  lemma EntryIs(bits: seq<bool>, v: nat, min: nat, width: nat, i: nat)
    requires EntryFits(bits, v, min, width, i) && min <= v
    ensures Shl(Upper(v, min, width), width) + ReadBits(bits, Offset(i, width), width) == v - min
  {
    ReadPrefix(bits, v, min, width, i, width);
    SplitJoin(v - min, width);
  }

  // ----- The next unary end, for the iterator -----

  /** The first set bit at or after `from`; zero if there is none. */
  function NextSet(bits: seq<bool>, from: nat): nat
    decreases |bits| - from
  {
    if from >= |bits| then 0 else if bits[from] then from else NextSet(bits, from + 1)
  }

  lemma {:induction false} NextSetIs(bits: seq<bool>, from: nat, pos: nat)
    requires from <= pos && Test(bits, pos) && forall x :: from <= x < pos ==> !Test(bits, x)
    ensures NextSet(bits, from) == pos
    decreases pos - from
  {
    if from < pos {
      assert !Test(bits, from);
      NextSetIs(bits, from + 1, pos);
    }
  }

  /** After the end of entry `i - 1`, the next set bit is the end of entry `i`. */
  lemma NextEnd(bits: seq<bool>, values: seq<nat>, min: nat, width: nat, i: nat)
    requires UpperFits(bits, values, min, width) && NonDecreasing(values) && i < |values| && min <= values[0]
    ensures NextSet(bits, if i == 0 then 0 else Position(values, min, width, i - 1) + 1) == Position(values, min, width, i)
  {
    hide Position, NonDecreasing;
    var from, pos := if i == 0 then 0 else Position(values, min, width, i - 1) + 1, Position(values, min, width, i);
    if i > 0 {
      UpperMonotone(values, min, width, i - 1, i);
    }
    forall x | from <= x < pos
      ensures !Test(bits, x)
    {
      if Test(bits, x) {
        var k :| 0 <= k < |values| && x == Position(values, min, width, k);
        if k < i - 1 {
          UpperMonotone(values, min, width, k, i - 1);
        } else if k > i {
          UpperMonotone(values, min, width, i, k);
        }
      }
    }
    NextSetIs(bits, from, pos);
  }

  // ----- The set -----

  datatype AppendResult = Appended | OutsideUniverse | Unordered

  /** The decoded value: `(upper << width | lower) + universeMin`. The two parts have no bit in common, so `|` adds. */
  function Decode(upper: nat, lower: nat, universeMin: nat, width: nat): nat {
    Wrap(Wrap(Shl(upper, width)) + lower + universeMin)
  }

  /** `Lookup` on the bits, for any index: beyond the last entry it decodes whatever the wrapped positions hold. */
  function LookupBits(upperBits: seq<bool>, lowerBits: seq<bool>, universeMin: nat, width: nat, index: nat): nat {
    var start := Wrap(index * width);
    var stop := Wrap(start + width);
    Decode(Wrap(SelectBit(upperBits, index) - index - 1), if start < stop then ReadBits(lowerBits, start, stop - start) else 0, universeMin, width)
  }

  lemma LookupExact(upperBits: seq<bool>, lowerBits: seq<bool>, values: seq<nat>, universeMin: nat, width: nat, i: nat)
    requires UpperFits(upperBits, values, universeMin, width) && LowerFits(lowerBits, values, universeMin, width)
    requires NonDecreasing(values) && i < |values| && universeMin <= values[0]
    requires values[i] < WORD && |upperBits| < WORD && Offset(|values|, width) < WORD
    ensures LookupBits(upperBits, lowerBits, universeMin, width, i) == values[i]
  {
    hide UpperFits, Offset, SelectBit, Upper, Shl, ReadBits, Wrap, Decode, EntryFits, NonDecreasing, Position;
    OffsetIs(i, width);
    OffsetNext(i, width);
    if i + 1 < |values| {
      OffsetMonotone(i + 1, |values|, width);
    }
    WrapSmall(Offset(i, width));
    WrapSmall(Offset(i, width) + width);
    SelectPosition(upperBits, values, universeMin, width, i);
    DecodeEntry(lowerBits, values, universeMin, width, i);
    if width == 0 {
      ReadNothing(lowerBits, Offset(i, width));
    }
  }

  lemma WrapSmall(x: int)
    requires 0 <= x < WORD
    ensures Wrap(x) == x
  {
  }

  /** The unary end and the lower bits of an entry decode to its value. */
  lemma DecodeEntry(lowerBits: seq<bool>, values: seq<nat>, universeMin: nat, width: nat, i: nat)
    requires LowerFits(lowerBits, values, universeMin, width)
    requires NonDecreasing(values) && i < |values| && universeMin <= values[0] && values[i] < WORD
    ensures Decode(Wrap(Position(values, universeMin, width, i) - i - 1), ReadBits(lowerBits, Offset(i, width), width), universeMin, width) == values[i]
  {
    hide Wrap, Upper, Offset, ReadBits, EntryFits;
    var v := values[i];
    assert universeMin <= v by { assert i > 0 ==> values[0] <= values[i]; }
    EntryIs(lowerBits, v, universeMin, width, i);
    var upper := Upper(v, universeMin, width);
    ShlAtLeast(upper, width);
    WrapSmall(upper);
    WrapSmall(Shl(upper, width));
    WrapSmall(v);
  }

  lemma {:induction false} ShlAtLeast(x: nat, k: nat)
    ensures Shl(x, k) >= x
  {
    if k > 0 {
      ShlAtLeast(x, k - 1);
    }
  }

  lemma ReadNothing(bits: seq<bool>, start: nat)
    ensures ReadBits(bits, start, 0) == 0
  {
  }

  lemma OffsetNext(i: nat, width: nat)
    ensures Offset(i + 1, width) == Offset(i, width) + width
  {
  }

  lemma UpperAppended(bits: seq<bool>, values: seq<nat>, min: nat, width: nat, v: nat)
    requires UpperFits(bits, values, min, width)
    ensures UpperFits(SetTo(bits, Upper(v, min, width) + |values| + 1, true), values + [v], min, width)
  {
    hide Upper;
    var pos := Upper(v, min, width) + |values| + 1;
    var bits', more := SetTo(bits, pos, true), values + [v];
    assert Position(more, min, width, |values|) == pos;
    assert forall i :: 0 <= i < |values| ==> Position(more, min, width, i) == Position(values, min, width, i);
    forall x: nat | Test(bits', x)
      ensures exists i :: 0 <= i < |more| && x == Position(more, min, width, i)
    {
      if x != pos {
        var i :| 0 <= i < |values| && x == Position(values, min, width, i);
        assert x == Position(more, min, width, i);
      }
    }
  }

  class EFSet {
    var upperBits: seq<bool>
    var lowerBits: seq<bool>
    const universeMin: nat
    const universeMax: nat
    const lowerBitsLength: nat
    var last: nat
    var len: nat
    ghost var values: seq<nat>

    ghost predicate Valid()
      reads this
    {
      && universeMax < WORD && lowerBitsLength < 64
      && len == |values|
      && (forall i :: 0 <= i < |values| ==> universeMin <= values[i] <= universeMax)
      && NonDecreasing(values)
      && last == (if values == [] then 0 else values[|values| - 1])
      && UpperFits(upperBits, values, universeMin, lowerBitsLength)
      && LowerFits(lowerBits, values, universeMin, lowerBitsLength)
      && len < WORD && |upperBits| < WORD && Offset(len, lowerBitsLength) < WORD
    }

    /** The positions an append would use exist in a 64-bit bit set. */
    ghost predicate Room(value: nat)
      reads this
    {
      Upper(value, universeMin, lowerBitsLength) + len + 2 < WORD && Offset(len + 1, lowerBitsLength) < WORD
    }

    /** `NewEFSet` and `AllocateEFSet`, with the lower width and the preallocated length as parameters. */
    constructor (universeMin: nat, universeMax: nat, lowerBitsLength: nat, preallocated: nat)
      requires universeMax <= 18446744073709551615 && lowerBitsLength < 64 && preallocated <= 18446744073709551615
      ensures Valid() && values == []
      ensures this.universeMin == universeMin && this.universeMax == universeMax && this.lowerBitsLength == lowerBitsLength
    {
      this.universeMin, this.universeMax, this.lowerBitsLength := universeMin, universeMax, lowerBitsLength;
      upperBits, lowerBits, last, len, values := seq(preallocated, _ => false), [], 0, 0, [];
    }

    method AppendUnchecked(value: nat)
      requires Valid() && universeMin <= value <= universeMax && value >= last && Room(value)
      modifies this
      ensures Valid() && values == old(values) + [value]
    {
      hide UpperFits, LowerFits, Offset, Shr, Low;
      var adjusted := value - universeMin;
      var upper, lower := Shr(adjusted, lowerBitsLength), Low(adjusted, lowerBitsLength);
      UpperAppended(upperBits, values, universeMin, lowerBitsLength, value);
      upperBits := SetTo(upperBits, upper + len + 1, true);
      lowerBits := WriteLower(lowerBits, values, value, universeMin, lowerBitsLength, len, lower);
      len := len + 1;
      last := value;
      values := values + [value];
    }

    /** `Append`: out-of-universe and decreasing values are refused and change nothing. */
    method Append(value: nat) returns (result: AppendResult)
      requires Valid() && (universeMin <= value <= universeMax && value >= last ==> Room(value))
      modifies this
      ensures Valid()
      ensures result == if value < universeMin || value > universeMax then OutsideUniverse else if value < old(last) then Unordered else Appended
      ensures values == if result == Appended then old(values) + [value] else old(values)
    {
      if value < universeMin || value > universeMax {
        return OutsideUniverse;
      }
      if value < last {
        return Unordered;
      }
      AppendUnchecked(value);
      return Appended;
    }

    /** `Lookup`: the `index`-th appended value. */
    method Lookup(index: nat) returns (value: nat)
      requires Valid() && index <= 18446744073709551615
      ensures value == LookupBits(upperBits, lowerBits, universeMin, lowerBitsLength, index)
      ensures index < len ==> value == values[index]
    {
      var upper := Wrap(SelectBit(upperBits, index) - index - 1);
      var lower := 0;
      var lowerIndex := Wrap(index * lowerBitsLength);
      var stop := Wrap(lowerIndex + lowerBitsLength);
      var idx := lowerIndex;
      while idx < stop
        invariant lowerIndex <= idx && (lowerIndex <= stop ==> idx <= stop) && (stop < lowerIndex ==> idx == lowerIndex)
        invariant lower == ReadBits(lowerBits, lowerIndex, idx - lowerIndex)
      {
        lower := 2 * lower;
        if Test(lowerBits, idx + 1) {
          lower := lower + 1;
        }
        idx := idx + 1;
      }
      value := Decode(upper, lower, universeMin, lowerBitsLength);
      if index < len {
        LookupExact(upperBits, lowerBits, values, universeMin, lowerBitsLength, index);
      }
    }

    /** `Find` on a non-empty set, for a target not below the first value. */
    method Find(target: nat) returns (index: nat, found: bool)
      requires Valid() && len > 0 && target >= values[0] && target < WORD
      ensures found <==> target in values
      ensures found ==> index < len && values[index] == target
      ensures !found ==> index == 0
    {
      var lowEntry, highEntry := 0, len - 1;
      while lowEntry <= highEntry
        invariant 0 <= lowEntry <= highEntry + 1 <= len
        invariant forall i :: 0 <= i < lowEntry ==> values[i] < target
        invariant forall i :: highEntry < i < len ==> values[i] > target
        decreases highEntry - lowEntry + 1
      {
        var midEntry := lowEntry + (highEntry - lowEntry) / 2;
        var nextValue := Lookup(midEntry);
        if nextValue == target {
          return midEntry, true;
        } else if nextValue < target {
          lowEntry := midEntry + 1;
        } else {
          assert midEntry > 0;
          highEntry := midEntry - 1;
        }
      }
      return 0, false;
    }

    /** `Iterator`: every value, in order. */
    method Iterate() returns (yielded: seq<nat>)
      requires Valid()
      ensures yielded == values
    {
      var it := new EFSetIterator(this);
      yielded := [];
      for idx := 0 to len
        invariant it.vec == this && it.Valid() && it.lowerIdx == idx && fresh(it)
        invariant yielded == values[..idx]
      {
        var value := it.Next();
        yielded := yielded + [value];
      }
    }
  }

  /** The inner loop of `append`: one lower bit at a time, most significant first. */
  method WriteLower(bits: seq<bool>, ghost values: seq<nat>, value: nat, universeMin: nat, width: nat, len: nat, lower: nat) returns (bits': seq<bool>)
    requires LowerFits(bits, values, universeMin, width) && len == |values| && universeMin <= value && lower == Lower(value, universeMin, width)
    ensures LowerFits(bits', values + [value], universeMin, width)
  {
    hide Offset, Lower, Bit;
    OffsetIs(len, width);
    var lowerOffset := len * width;
    bits' := bits;
    for bitIdx := 0 to width
      invariant forall b: nat :: b < bitIdx ==> BitFits(bits', value, universeMin, width, len, b)
      invariant LowerFits(bits', values, universeMin, width)
    {
      ghost var before := bits';
      bits' := SetTo(bits', lowerOffset + bitIdx + 1, Bit(lower, width - bitIdx - 1));
      forall i | 0 <= i < |values|
        ensures EntryFits(bits', values[i], universeMin, width, i)
      {
        OffsetMonotone(i, len, width);
        assert EntryFits(before, values[i], universeMin, width, i);
        forall b: nat | b < width
          ensures BitFits(bits', values[i], universeMin, width, i, b)
        {
          assert BitFits(before, values[i], universeMin, width, i, b);
        }
      }
      forall b: nat | b < bitIdx + 1
        ensures BitFits(bits', value, universeMin, width, len, b)
      {
        if b < bitIdx {
          assert BitFits(before, value, universeMin, width, len, b);
        }
      }
    }
    assert EntryFits(bits', value, universeMin, width, len);
  }

  class EFSetIterator {
    const vec: EFSet
    var upperIdx: nat
    var lowerIdx: nat

    /** `upperIdx` is the unary end of the entry returned last. */
    ghost predicate Valid()
      reads this, vec
    {
      && vec.Valid() && lowerIdx <= vec.len
      && upperIdx == if lowerIdx == 0 then 0 else Position(vec.values, vec.universeMin, vec.lowerBitsLength, lowerIdx - 1)
    }

    constructor (vec: EFSet)
      requires vec.Valid()
      ensures this.vec == vec && Valid() && lowerIdx == 0
    {
      this.vec, upperIdx, lowerIdx := vec, 0, 0;
    }

    /** `Next` for the entries of the set. */
    method Next() returns (value: nat)
      requires Valid() && lowerIdx < vec.len
      modifies this
      ensures Valid() && lowerIdx == old(lowerIdx) + 1 && value == vec.values[old(lowerIdx)]
    {
      hide EntryFits, UpperFits, Wrap, Decode;
      OffsetIs(lowerIdx, vec.lowerBitsLength);
      NextEnd(vec.upperBits, vec.values, vec.universeMin, vec.lowerBitsLength, lowerIdx);
      DecodeEntry(vec.lowerBits, vec.values, vec.universeMin, vec.lowerBitsLength, lowerIdx);
      var lowerLookupIdx := lowerIdx * vec.lowerBitsLength;
      if upperIdx > 0 {
        upperIdx := upperIdx + 1;
      }
      upperIdx := NextSet(vec.upperBits, upperIdx);
      var nextLower := 0;
      for idx := lowerLookupIdx to lowerLookupIdx + vec.lowerBitsLength
        invariant nextLower == ReadBits(vec.lowerBits, lowerLookupIdx, idx - lowerLookupIdx)
      {
        nextLower := 2 * nextLower;
        if Test(vec.lowerBits, idx + 1) {
          nextLower := nextLower + 1;
        }
      }
      value := Decode(Wrap(upperIdx - lowerIdx - 1), nextLower, vec.universeMin, vec.lowerBitsLength);
      lowerIdx := lowerIdx + 1;
    }
  }

  // ----- Exactly when `Find` can be trusted -----

  /** The loop of `Find`, one iteration at a time, with unsigned bounds. */
  datatype FindState = Searching(low: nat, high: nat) | Answer(index: nat, found: bool)

  function FindStart(len: nat): FindState {
    Searching(0, Wrap(len - 1))
  }

  function FindStep(lookup: nat -> nat, target: nat, st: FindState): FindState {
    match st
    case Answer(_, _) => st
    case Searching(low, high) =>
      if low > high then Answer(0, false)
      else
        var mid := low + (high - low) / 2;
        var next := lookup(mid);
        if next == target then Answer(mid, true)
        else if next < target then Searching(Wrap(mid + 1), high)
        else Searching(low, Wrap(mid - 1))
  }

  function FindAfter(lookup: nat -> nat, target: nat, st: FindState, n: nat): FindState
    decreases n
  {
    if n == 0 then st else FindAfter(lookup, target, FindStep(lookup, target, st), n - 1)
  }

  /** The answer says whether the target is there, and where. */
  ghost predicate RightAnswer(values: seq<nat>, target: nat, st: FindState) {
    st.Answer? && (st.found <==> target in values) && (st.found ==> st.index < |values| && values[st.index] == target)
  }

  /** `Find` comes to an end with the right answer. */
  ghost predicate FindsRight(lookup: nat -> nat, values: seq<nat>, target: nat) {
    exists n: nat :: RightAnswer(values, target, FindAfter(lookup, target, FindStart(|values|), n))
  }

  ghost predicate Represents(lookup: nat -> nat, values: seq<nat>) {
    && NonDecreasing(values) && |values| < WORD
    && forall i :: 0 <= i < |values| ==> lookup(i) == values[i]
  }

  ghost predicate Bracketed(values: seq<nat>, target: nat, low: nat, high: int) {
    && low <= high + 1 <= |values|
    && (forall i :: 0 <= i < low ==> values[i] < target)
    && (forall i :: high < i < |values| ==> values[i] > target)
  }

  /** One iteration finds the target or keeps the bracket and shortens it. */
  lemma SearchStep(lookup: nat -> nat, values: seq<nat>, target: nat, low: nat, high: nat)
    requires Represents(lookup, values) && values != [] && target >= values[0] && Bracketed(values, target, low, high) && low <= high
    ensures var st := FindStep(lookup, target, Searching(low, high));
            if st.Answer? then RightAnswer(values, target, st) else Bracketed(values, target, st.low, st.high) && st.high - st.low < high - low
  {
    hide Wrap;
    var mid := low + (high - low) / 2;
    assert lookup(mid) == values[mid];
    WrapSmall(mid + 1);
    if values[mid] > target {
      WrapSmall(mid - 1);
    }
  }

  lemma {:induction false} SearchEnds(lookup: nat -> nat, values: seq<nat>, target: nat, low: nat, high: nat) returns (n: nat)
    requires Represents(lookup, values) && values != [] && target >= values[0] && Bracketed(values, target, low, high)
    ensures RightAnswer(values, target, FindAfter(lookup, target, Searching(low, high), n))
    decreases high + 1 - low
  {
    hide Represents, FindAfter;
    var st := FindStep(lookup, target, Searching(low, high));
    if low > high {
      assert RightAnswer(values, target, st);
    } else {
      SearchStep(lookup, values, target, low, high);
    }
    if st.Answer? {
      n := 1;
      OneStep(lookup, target, Searching(low, high), 0);
      AnswerStays(lookup, target, st, 0);
    } else {
      n := SearchEnds(lookup, values, target, st.low, st.high);
      OneStep(lookup, target, Searching(low, high), n);
      n := n + 1;
    }
  }

  lemma OneStep(lookup: nat -> nat, target: nat, st: FindState, n: nat)
    ensures FindAfter(lookup, target, st, n + 1) == FindAfter(lookup, target, FindStep(lookup, target, st), n)
  {
  }

  /** On a non-empty set, `Find` is right about every target that is not below the first value. */
  lemma FindsFromFirst(lookup: nat -> nat, values: seq<nat>, target: nat)
    requires Represents(lookup, values) && values != [] && target >= values[0]
    ensures FindsRight(lookup, values, target)
  {
    WrapSmall(|values| - 1);
    var n := SearchEnds(lookup, values, target, 0, |values| - 1);
    assert RightAnswer(values, target, FindAfter(lookup, target, FindStart(|values|), n));
  }

  /** Searching for zero never moves the lower bound, so it never gives up. */
  lemma {:induction false} ZeroNeverGivesUp(lookup: nat -> nat, high: nat, n: nat)
    ensures var st := FindAfter(lookup, 0, Searching(0, high), n); st.Searching? || st.found
    decreases n
  {
    if n > 0 {
      var st := FindStep(lookup, 0, Searching(0, high));
      if st.Searching? {
        ZeroNeverGivesUp(lookup, st.high, n - 1);
      } else {
        AnswerStays(lookup, 0, st, n - 1);
      }
    }
  }

  lemma {:induction false} AnswerStays(lookup: nat -> nat, target: nat, st: FindState, n: nat)
    requires st.Answer?
    ensures FindAfter(lookup, target, st, n) == st
    decreases n
  {
    if n > 0 {
      AnswerStays(lookup, target, st, n - 1);
    }
  }

  /**
   * `Find` is right about every target exactly when the set is non-empty and its first value is zero: below the first
   * value, and on the empty set, the upper bound wraps around.
   */
  lemma FindRightIff(lookup: nat -> nat, values: seq<nat>)
    requires Represents(lookup, values)
    ensures (forall target: nat :: target < WORD ==> FindsRight(lookup, values, target)) <==> values != [] && values[0] == 0
  {
    hide Represents, FindAfter;
    if values != [] && values[0] == 0 {
      forall target: nat | target < WORD
        ensures FindsRight(lookup, values, target)
      {
        FindsFromFirst(lookup, values, target);
      }
    } else {
      assert !FindsRight(lookup, values, 0) by { ZeroMissed(lookup, values); }
    }
  }

  lemma ZeroMissed(lookup: nat -> nat, values: seq<nat>)
    requires Represents(lookup, values) && !(values != [] && values[0] == 0)
    ensures !FindsRight(lookup, values, 0)
  {
    forall n: nat
      ensures !RightAnswer(values, 0, FindAfter(lookup, 0, FindStart(|values|), n))
    {
      ZeroNeverGivesUp(lookup, Wrap(|values| - 1), n);
      assert 0 !in values;
    }
  }

  function Lookups(upperBits: seq<bool>, lowerBits: seq<bool>, universeMin: nat, width: nat): nat -> nat {
    i => LookupBits(upperBits, lowerBits, universeMin, width, i)
  }

  /** The lookup of a set's bits represents its values, so the above applies to it. */
  lemma BitsRepresent(upperBits: seq<bool>, lowerBits: seq<bool>, values: seq<nat>, universeMin: nat, width: nat)
    requires UpperFits(upperBits, values, universeMin, width) && LowerFits(lowerBits, values, universeMin, width) && NonDecreasing(values)
    requires forall i :: 0 <= i < |values| ==> universeMin <= values[i] < WORD
    requires |values| < WORD && |upperBits| < WORD && Offset(|values|, width) < WORD
    ensures Represents(Lookups(upperBits, lowerBits, universeMin, width), values)
  {
    hide UpperFits, LowerFits, LookupBits;
    forall i | 0 <= i < |values|
      ensures LookupBits(upperBits, lowerBits, universeMin, width, i) == values[i]
    {
      LookupExact(upperBits, lowerBits, values, universeMin, width, i);
    }
  }
}
