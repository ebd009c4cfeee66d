/** Reading a per-CPU map element: src/collect/map_reader.cpp adds the CPUs' values byte by byte,
    without carries, although src/collect/map_reader.h promises their sum. How far off that is, and
    exactly when it is right. Fields are little-endian. */
module PercpuSum {
  import opened Arith

  type Byte = b: nat | b < 256

  // ---- numbers and their digits ----

  /** The value of base-256 digits, least significant first; digits may be too large. */
  function Value(digits: seq<nat>): nat {
    if digits == [] then 0 else digits[0] + 256 * Value(digits[1..])
  }

  /** What a byte keeps of a column sum, and what it loses. */
  function Kept(columns: seq<nat>): seq<nat> {
    seq(|columns|, i requires 0 <= i < |columns| => columns[i] % 256)
  }

  function Lost(columns: seq<nat>): seq<nat> {
    seq(|columns|, i requires 0 <= i < |columns| => columns[i] / 256)
  }

  lemma {:induction false} KeptTail(columns: seq<nat>)
    requires columns != []
    ensures Kept(columns)[0] == columns[0] % 256 && Kept(columns)[1..] == Kept(columns[1..])
    ensures Lost(columns)[0] == columns[0] / 256 && Lost(columns)[1..] == Lost(columns[1..])
  {
  }

  /** The error is exactly the lost carries: each column's overflow, one position up. */
  lemma {:induction false} ErrorIsLostCarries(columns: seq<nat>)
    ensures Value(columns) == Value(Kept(columns)) + 256 * Value(Lost(columns))
  {
    if columns != [] {
      KeptTail(columns);
      ErrorIsLostCarries(columns[1..]);
    }
  }

  lemma {:induction false} ZeroValue(digits: seq<nat>)
    ensures Value(digits) == 0 <==> forall i :: 0 <= i < |digits| ==> digits[i] == 0
  {
    if digits != [] {
      ZeroValue(digits[1..]);
      if Value(digits) == 0 {
        assert forall i :: 1 <= i < |digits| ==> digits[i] == digits[1..][i - 1];
      }
    }
  }

  /** No column sum fills a byte. */
  predicate Fits(columns: seq<nat>) {
    forall i :: 0 <= i < |columns| ==> columns[i] <= 255
  }

  /** The byte-wise sum is the true sum if and only if no column overflows. */
  lemma {:induction false} ByteSumIsRightIffColumnsFit(columns: seq<nat>)
    ensures Value(Kept(columns)) == Value(columns) <==> Fits(columns)
  {
    ErrorIsLostCarries(columns);
    ZeroValue(Lost(columns));
    assert forall i :: 0 <= i < |columns| ==> (Lost(columns)[i] == 0 <==> columns[i] <= 255);
  }

  // ---- fields have a width ----

  lemma {:induction false} ValueBound(digits: seq<nat>)
    requires forall i :: 0 <= i < |digits| ==> digits[i] < 256
    ensures Value(digits) < Pow256(|digits|)
  {
    if digits != [] {
      ValueBound(digits[1..]);
    }
  }

  lemma {:induction false} ValueOfPrefix(digits: seq<nat>)
    requires digits != []
    ensures Value(digits) == Value(digits[..|digits| - 1]) + Pow256(|digits| - 1) * digits[|digits| - 1]
  {
    var n := |digits| - 1;
    if n > 0 {
      ValueOfPrefix(digits[1..]);
      assert digits[1..][..n - 1] == digits[..n][1..];
      assert 256 * (Pow256(n - 1) * digits[n]) == (256 * Pow256(n - 1)) * digits[n];
    }
  }

  lemma {:induction false} Remainder(n: int, d: nat, q: int, r: nat)
    requires d >= 1 && n == q * d + r && r < d
    ensures n % d == r
  {
    var p, s := n / d, n % d;
    assert n == p * d + s;
    if p < q { MulMono(p + 1, q, d); }
    if q < p { MulMono(q + 1, p, d); }
  }

  /** A column sum apart from its last overflow, which falls off the end of the field. */
  lemma {:induction false} Decomposed(columns: seq<nat>)
    requires columns != []
    ensures var n := |columns| - 1;
            Value(columns) == Lost(columns)[n] * Pow256(n + 1)
                              + (Value(Kept(columns)) + 256 * Value(Lost(columns)[..n]))
  {
    var n := |columns| - 1;
    ErrorIsLostCarries(columns);
    ValueOfPrefix(Lost(columns));
    Regroup(Value(Lost(columns)[..n]), Pow256(n), Lost(columns)[n]);
    assert Pow256(n + 1) == 256 * Pow256(n);
  }

  lemma {:induction false} Regroup(a: nat, p: nat, d: nat)
    ensures 256 * (a + p * d) == d * (256 * p) + 256 * a
  {
    assert 256 * (p * d) == d * (256 * p);
  }

  lemma {:induction false} LostAreDigits(columns: seq<nat>, n: nat)
    requires n <= |columns| && forall i :: 0 <= i < |columns| ==> columns[i] <= 255 * 256
    ensures Value(Lost(columns)[..n]) < Pow256(n)
    ensures Value(Lost(columns)[..n]) == 0 <==> Fits(columns[..n])
  {
    var inside := Lost(columns)[..n];
    ValueBound(inside);
    ZeroValue(inside);
    assert forall i :: 0 <= i < n ==> (inside[i] == 0 <==> columns[..n][i] <= 255);
  }

  /** Truncated to the width of the field, with at most 256 CPUs, the byte-wise sum is right if and
      only if no column but the last overflows. */
  lemma {:induction false} TruncatedSumIsRightIff(columns: seq<nat>)
    requires columns != [] && forall i :: 0 <= i < |columns| ==> columns[i] <= 255 * 256
    ensures Value(Kept(columns)) == Value(columns) % Pow256(|columns|)
        <==> Fits(columns[..|columns| - 1])
  {
    var n := |columns| - 1;
    Decomposed(columns);
    ValueBound(Kept(columns));
    LostAreDigits(columns, n);
    CarriesDecide(Value(columns), Pow256(n + 1), Lost(columns)[n], Value(Kept(columns)),
                  256 * Value(Lost(columns)[..n]));
  }

  lemma {:induction false} CarriesDecide(n: nat, width: nat, q: nat, low: nat, carried: nat)
    requires width >= 1 && n == q * width + (low + carried) && low < width && carried < width
    ensures low == n % width <==> carried == 0
  {
    if carried == 0 {
      Remainder(n, width, q, low);
    } else {
      OffByCarries(n, width, q, low, carried);
    }
  }

  lemma {:induction false} OffByCarries(n: nat, width: nat, q: nat, low: nat, carried: nat)
    requires width >= 1 && n == q * width + (low + carried) && low < width && 0 < carried < width
    ensures n % width != low
  {
    if low + carried < width {
      Remainder(n, width, q, low + carried);
    } else {
      assert n == (q + 1) * width + (low + carried - width) by {
        assert (q + 1) * width == q * width + width;
      }
      Remainder(n, width, q + 1, low + carried - width);
    }
  }

  // ---- columns of several CPUs ----

  function AddColumns(a: seq<nat>, b: seq<nat>): seq<nat>
    requires |a| == |b|
  {
    seq(|a|, i requires 0 <= i < |a| => a[i] + b[i])
  }

  function Zeros(w: nat): seq<nat> { seq(w, i => 0) }

  ghost predicate Rectangular(values: seq<seq<nat>>, w: nat) {
    forall k :: 0 <= k < |values| ==> |values[k]| == w
  }

  /** The column sums of the values of all CPUs. */
  function Columns(values: seq<seq<nat>>, w: nat): (c: seq<nat>)
    requires Rectangular(values, w)
    ensures |c| == w
  {
    if values == [] then Zeros(w) else AddColumns(Columns(values[..|values| - 1], w), values[|values| - 1])
  }

  /** What the header promises: the sum over the CPUs. */
  function SumOfValues(values: seq<seq<nat>>): nat {
    if values == [] then 0 else SumOfValues(values[..|values| - 1]) + Value(values[|values| - 1])
  }

  lemma {:induction false} ValuesAdd(a: seq<nat>, b: seq<nat>)
    requires |a| == |b|
    ensures Value(AddColumns(a, b)) == Value(a) + Value(b)
  {
    if a != [] {
      ValuesAdd(a[1..], b[1..]);
      assert AddColumns(a, b)[1..] == AddColumns(a[1..], b[1..]);
    }
  }

  lemma {:induction false} ColumnsHoldTheSum(values: seq<seq<nat>>, w: nat)
    requires Rectangular(values, w)
    ensures Value(Columns(values, w)) == SumOfValues(values)
  {
    if values == [] {
      ZeroValue(Zeros(w));
    } else {
      var n := |values| - 1;
      ColumnsHoldTheSum(values[..n], w);
      ValuesAdd(Columns(values[..n], w), values[n]);
    }
  }

  /** The field of `w` bytes at `off`, of every CPU. */
  function Fields(values: seq<seq<nat>>, size: nat, off: nat, w: nat): seq<seq<nat>>
    requires Rectangular(values, size) && off + w <= size
  {
    seq(|values|, k requires 0 <= k < |values| => values[k][off..off + w])
  }

  lemma {:induction false} ColumnsOfFields(values: seq<seq<nat>>, size: nat, off: nat, w: nat)
    requires Rectangular(values, size) && off + w <= size
    ensures Columns(Fields(values, size, off, w), w) == Columns(values, size)[off..off + w]
  {
    if values == [] {
      assert Zeros(size)[off..off + w] == Zeros(w);
    } else {
      var n := |values| - 1;
      ColumnsOfFields(values[..n], size, off, w);
      assert Fields(values, size, off, w)[..n] == Fields(values[..n], size, off, w);
    }
  }

  /** A field read from the byte-wise sum equals the sum over the CPUs if and only if no byte column of
      that field overflows. */
  lemma {:induction false} FieldIsSummedIff(values: seq<seq<nat>>, size: nat, off: nat, w: nat)
    requires Rectangular(values, size) && off + w <= size
    ensures Value(Kept(Columns(values, size))[off..off + w]) == SumOfValues(Fields(values, size, off, w))
        <==> Fits(Columns(values, size)[off..off + w])
  {
    var columns := Columns(values, size)[off..off + w];
    ColumnsOfFields(values, size, off, w);
    ColumnsHoldTheSum(Fields(values, size, off, w), w);
    ByteSumIsRightIffColumnsFit(columns);
    assert Kept(Columns(values, size))[off..off + w] == Kept(columns);
  }

  /** Two CPUs that counted 200 each are read as 144. */
  lemma {:induction false} TwoCpusLoseACarry()
    ensures var values: seq<seq<nat>> := [[200, 0], [200, 0]];
            Value(Kept(Columns(values, 2))) == 144 && SumOfValues(values) == 400
  {
    var values: seq<seq<nat>> := [[200, 0], [200, 0]];
    assert values[..1] == [[200, 0]] && values[..1][..0] == [];
    assert Columns(values[..1], 2) == [200, 0];
    assert Columns(values, 2) == [400, 0];
    assert Kept([400, 0]) == [144, 0];
    assert Value([144, 0]) == 144 + 256 * Value([0]);
    assert Value([200, 0]) == 200 + 256 * Value([0]);
    assert Value([0]) == 0;
  }

  // ---- the reader ----

  function RoundUp8(v: nat): (r: nat)
    ensures v <= r < v + 8 && r % 8 == 0
  {
    (v + 7) / 8 * 8
  }

  /** The raw element of a per-CPU map: one aligned slot per CPU. */
  ghost predicate Raw(buf: seq<Byte>, cpus: nat, stride: nat) {
    |buf| == cpus * stride
  }

  lemma {:induction false} SlotInRange(cpu: nat, cpus: nat, stride: nat)
    requires cpu < cpus
    ensures 0 <= cpu * stride && cpu * stride + stride <= cpus * stride
  {
    MulMono(cpu, cpus, stride);
  }

  function Slot(buf: seq<Byte>, cpus: nat, stride: nat, size: nat, cpu: nat): (s: seq<nat>)
    requires Raw(buf, cpus, stride) && size <= stride && cpu < cpus
    ensures |s| == size
  {
    SlotInRange(cpu, cpus, stride);
    seq(size, i requires 0 <= i < size => buf[cpu * stride + i])
  }

  function Slots(buf: seq<Byte>, cpus: nat, stride: nat, size: nat, n: nat): (s: seq<seq<nat>>)
    requires Raw(buf, cpus, stride) && size <= stride && n <= cpus
    ensures |s| == n && Rectangular(s, size)
  {
    seq(n, k requires 0 <= k < n => Slot(buf, cpus, stride, size, k))
  }

  /** Byte `i` of every CPU's slot, added up over the first `n` CPUs. */
  function ByteSum(buf: seq<Byte>, cpus: nat, stride: nat, i: nat, n: nat): nat
    requires Raw(buf, cpus, stride) && i < stride && n <= cpus
  {
    if n == 0 then 0
    else
      SlotInRange(n - 1, cpus, stride);
      ByteSum(buf, cpus, stride, i, n - 1) + buf[(n - 1) * stride + i]
  }

  lemma {:induction false} ColumnsAreByteSums(
      buf: seq<Byte>, cpus: nat, stride: nat, size: nat, n: nat, i: nat)
    requires Raw(buf, cpus, stride) && size <= stride && n <= cpus && i < size
    ensures Columns(Slots(buf, cpus, stride, size, n), size)[i] == ByteSum(buf, cpus, stride, i, n)
  {
    if n > 0 {
      ColumnsAreByteSums(buf, cpus, stride, size, n - 1, i);
      SlotInRange(n - 1, cpus, stride);
      assert Slots(buf, cpus, stride, size, n)[..n - 1] == Slots(buf, cpus, stride, size, n - 1);
    }
  }

  class MapSlice {
    const open: bool
    const percpu: bool
    const size: nat
    const cpus: nat
    const aligned: nat
    /** The kernel's side: the raw element of every key. */
    const elements: map<nat, seq<Byte>>

    ghost predicate Valid() {
      aligned == RoundUp8(size)
      && forall k :: k in elements ==>
           if percpu then Raw(elements[k], cpus, aligned) else |elements[k]| == size
    }

    constructor (open: bool, percpu: bool, size: nat, cpus: nat, elements: map<nat, seq<Byte>>)
      requires forall k :: k in elements ==>
                 if percpu then Raw(elements[k], cpus, RoundUp8(size)) else |elements[k]| == size
      ensures Valid()
    {
      this.open, this.percpu, this.size, this.cpus, this.elements := open, percpu, size, cpus, elements;
      aligned := RoundUp8(size);
    }

    /** Reads an element: as it is, or added up over the CPUs byte by byte. */
    method LookupPercpuSum(key: nat, out: array<Byte>) returns (ok: bool)
      requires Valid() && out.Length == size
      modifies out
      ensures ok <==> open && key in elements
      ensures !ok ==> out[..] == old(out[..])
      ensures ok && !percpu ==> out[..] == elements[key]
      ensures ok && percpu ==> out[..] == Kept(Columns(Slots(elements[key], cpus, aligned, size, cpus), size))
      ensures ok && percpu ==>
                forall i :: 0 <= i < size ==> out[i] == ByteSum(elements[key], cpus, aligned, i, cpus) % 256
    {
      if !open || key !in elements {
        return false;
      }
      var buf := elements[key];
      if !percpu {
        for i := 0 to size
          invariant out[..i] == buf[..i]
        {
          out[i] := buf[i];
        }
        return true;
      }
      SumSlots(buf, out);
      ok := true;
      forall i | 0 <= i < size
        ensures out[i] == ByteSum(buf, cpus, aligned, i, cpus) % 256
      {
        ColumnsAreByteSums(buf, cpus, aligned, size, cpus, i);
        assert out[i] == out[..][i];
      }
    }

    method SumSlots(buf: seq<Byte>, out: array<Byte>)
      requires Raw(buf, cpus, aligned) && out.Length == size <= aligned
      modifies out
      ensures out[..] == Kept(Columns(Slots(buf, cpus, aligned, size, cpus), size))
    {
      for i := 0 to size
        invariant forall k :: 0 <= k < i ==> out[k] == 0
      {
        out[i] := 0;
      }
      assert out[..] == Kept(Columns(Slots(buf, cpus, aligned, size, 0), size));
      for cpu := 0 to cpus
        invariant out[..] == Kept(Columns(Slots(buf, cpus, aligned, size, cpu), size))
      {
        AddSlot(buf, cpu, out, Columns(Slots(buf, cpus, aligned, size, cpu), size));
        assert Slots(buf, cpus, aligned, size, cpu + 1)[..cpu] == Slots(buf, cpus, aligned, size, cpu);
      }
    }

    method AddSlot(buf: seq<Byte>, cpu: nat, out: array<Byte>, ghost columns: seq<nat>)
      requires Raw(buf, cpus, aligned) && out.Length == size <= aligned && cpu < cpus
      requires |columns| == size && out[..] == Kept(columns)
      modifies out
      ensures out[..] == Kept(AddColumns(columns, Slot(buf, cpus, aligned, size, cpu)))
    {
      SlotInRange(cpu, cpus, aligned);
      var start := cpu * aligned;
      var src := buf[start..start + size];
      assert src == Slot(buf, cpus, aligned, size, cpu);
      AddBytes(src, out, columns);
    }
  }

  /** Adds bytes to bytes; what does not fit is dropped. */
  method AddBytes(src: seq<Byte>, out: array<Byte>, ghost columns: seq<nat>)
    requires out.Length == |src| == |columns| && out[..] == Kept(columns)
    modifies out
    ensures out[..] == Kept(AddColumns(columns, src))
  {
    assert forall k :: 0 <= k < |src| ==> out[k] == out[..][k];
    for i := 0 to |src|
      invariant forall k :: 0 <= k < i ==> out[k] == (columns[k] + src[k]) % 256
      invariant forall k :: i <= k < |src| ==> out[k] == columns[k] % 256
    {
      var sum: nat := out[i] as nat + src[i] as nat;
      out[i] := sum % 256;
    }
  }

  // ---- what it would take ----

  /** A sum that carries from byte to byte keeps the contract on every input, up to the width of the
      field. */
  method CarryingSum(columns: seq<nat>) returns (bytes: seq<Byte>)
    ensures |bytes| == |columns| && Value(bytes) == Value(columns) % Pow256(|columns|)
  {
    bytes := [];
    var carry: nat := 0;
    for i := 0 to |columns|
      invariant |bytes| == i
      invariant Value(bytes) + Pow256(i) * carry == Value(columns[..i])
    {
      var t := columns[i] + carry;
      CarryStep(bytes, columns, i, carry);
      bytes := bytes + [t % 256];
      carry := t / 256;
    }
    assert columns[..|columns|] == columns;
    ValueBound(bytes);
    assert carry * Pow256(|columns|) == Pow256(|columns|) * carry;
    Remainder(Value(columns), Pow256(|columns|), carry, Value(bytes));
  }

  lemma {:induction false} CarryStep(bytes: seq<Byte>, columns: seq<nat>, i: nat, carry: nat)
    requires i < |columns| && |bytes| == i
    requires Value(bytes) + Pow256(i) * carry == Value(columns[..i])
    ensures var t := columns[i] + carry;
            Value(bytes + [t % 256]) + Pow256(i + 1) * (t / 256) == Value(columns[..i + 1])
  {
    var t := columns[i] + carry;
    var more: seq<nat> := bytes + [t % 256];
    ValueOfPrefix(more);
    ValueOfPrefix(columns[..i + 1]);
    assert more[..i] == bytes && columns[..i + 1][..i] == columns[..i];
    CarryArithmetic(Value(bytes), Pow256(i), carry, columns[i], Value(columns[..i]));
  }

  lemma {:induction false} CarryArithmetic(low: nat, p: nat, carry: nat, column: nat, value: nat)
    requires low + p * carry == value
    ensures var t := column + carry;
            low + p * (t % 256) + (256 * p) * (t / 256) == value + p * column
  {
    var t := column + carry;
    var q, r := t / 256, t % 256;
    assert t == 256 * q + r;
    Associate(p, q);
  }

  lemma {:induction false} Associate(p: nat, q: nat)
    ensures p * (256 * q) == (256 * p) * q
  {
  }
}
