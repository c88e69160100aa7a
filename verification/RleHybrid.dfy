/**
 The run-length / bit-packing hybrid decoder (tools/minimal_parquet_reader.py), against Apache
 Parquet's Encodings.md, section "Run Length Encoding / Bit-Packing Hybrid".
 */
module RleHybrid {
  import opened Wrappers
  import opened Ordering
  import opened Arithmetic
  import opened Bytes

  // ---- The format ----

  /** One value repeated, or groups of eight values packed at the bit width. */
  datatype Run = Repeated(value: nat, times: nat) | Packed(values: seq<nat>)

  ghost predicate Legal(width: nat, run: Run) {
    match run
    case Repeated(value, _) => value < Pow(256, (width + 7) / 8)
    case Packed(values) => |values| % 8 == 0 && forall i :: 0 <= i < |values| ==> values[i] < Pow(2, width)
  }

  ghost function Values(run: Run): seq<nat> {
    match run
    case Repeated(value, times) => seq(times, i => value)
    case Packed(values) => values
  }

  /** The number whose digits, lowest first, are the values. */
  ghost function Number(values: seq<nat>, base: nat): nat {
    if values == [] then 0 else values[0] + base * Number(values[1..], base)
  }

  ghost function Encode(width: nat, run: Run): seq<byte> {
    match run
    case Repeated(value, times) => WriteVarint(2 * times) + ToLE(value, (width + 7) / 8)
    case Packed(values) =>
      WriteVarint(2 * (|values| / 8) + 1) + ToLE(Number(values, Pow(2, width)), |values| / 8 * width)
  }

  ghost function EncodeAll(width: nat, runs: seq<Run>): seq<byte> {
    if runs == [] then [] else Encode(width, runs[0]) + EncodeAll(width, runs[1..])
  }

  ghost function AllValues(runs: seq<Run>): seq<nat> {
    if runs == [] then [] else Values(runs[0]) + AllValues(runs[1..])
  }

  /** How many runs it takes to hold `count` values. */
  ghost function Needed(runs: seq<Run>, count: int): nat {
    if count <= 0 || runs == [] then 0 else 1 + Needed(runs[1..], count - |Values(runs[0])|)
  }

  // ---- The decoder ----

  datatype Error = IndexError

  /** `(bits >> (i * bw)) & ((1 << bw) - 1)` */
  function Field(bits: nat, i: nat, width: nat): nat {
    PowPositive(2, i * width);
    PowPositive(2, width);
    bits / Pow(2, i * width) % Pow(2, width)
  }

  /** The values of the run whose header stands at `pos`, and the position behind the run. */
  function ReadRun(buf: seq<byte>, pos: nat, width: nat): (r: Option<(seq<nat>, nat)>)
    ensures r.Some? ==> pos < r.value.1 && pos < |buf|
  {
    match ReadVarint(buf, pos, 0, 0)
    case None => None
    case Some((header, start)) =>
      if header % 2 == 1 then
        var groups := header / 2;
        var bits := FromLE(Slice(buf, start, start + groups * width));
        Some((seq(groups * 8, i requires 0 <= i < groups * 8 => Field(bits, i, width)), start + groups * width))
      else
        var nb := (width + 7) / 8;
        var v := if nb > 0 then FromLE(Slice(buf, start, start + nb)) else 0;
        Some((seq(header / 2, i => v), start + nb))
  }

  function DecodeFrom(buf: seq<byte>, pos: nat, width: nat, count: int, out: seq<nat>): Result<(seq<nat>, nat), Error>
    decreases |buf| - pos
  {
    if |out| >= count then Ok((Take(out, count), pos))
    else match ReadRun(buf, pos, width)
      case None => Err(IndexError)
      case Some((values, next)) => DecodeFrom(buf, next, width, count, out + values)
  }

  /** The inner loop over the fields of a bit-packed run. */
  method Unpack(bits: nat, n: nat, width: nat, out0: seq<nat>) returns (out: seq<nat>)
    ensures out == out0 + seq(n, i requires 0 <= i < n => Field(bits, i, width))
  {
    out := out0;
    for i := 0 to n
      invariant out == out0 + seq(i, k requires 0 <= k < i => Field(bits, k, width))
    {
      out := out + [Field(bits, i, width)];
    }
  }

  method Decode(buf: seq<byte>, start: nat, width: nat, count: int) returns (r: Result<(seq<nat>, nat), Error>)
    ensures r == DecodeFrom(buf, start, width, count, [])
  {
    hide FromLE, Field, Slice, ReadVarint;
    var pos: nat, out: seq<nat> := start, [];
    while |out| < count
      invariant DecodeFrom(buf, pos, width, count, out) == DecodeFrom(buf, start, width, count, [])
      decreases if |out| < count then |buf| - pos else -1
    {
      var header := Varint(buf, pos);
      if header.None? {
        return Err(IndexError);
      }
      ghost var pos0, out0 := pos, out;
      var (h, next) := header.value;
      if h % 2 == 1 {
        var groups: nat := h / 2;
        MulNonNegative(groups, width);
        var bits := FromLE(Slice(buf, next, next + groups * width));
        out := Unpack(bits, groups * 8, width, out);
        pos := next + groups * width;
      } else {
        var nb := (width + 7) / 8;
        var v := if nb > 0 then FromLE(Slice(buf, next, next + nb)) else 0;
        out, pos := out + seq(h / 2, i => v), next + nb;
      }
      assert ReadRun(buf, pos0, width) == Some((out[|out0|..], pos)) && out == out0 + out[|out0|..];
    }
    r := Ok((Take(out, count), pos));
  }

  // ---- Decoding inverts the format ----

  lemma {:induction false} NumberBound(values: seq<nat>, base: nat)
    requires base > 0 && forall i :: 0 <= i < |values| ==> values[i] < base
    ensures Number(values, base) < Pow(base, |values|)
  {
    if values != [] {
      var rest := Number(values[1..], base);
      NumberBound(values[1..], base);
      MulMonotone(base, rest + 1, Pow(base, |values| - 1));
      assert base * (rest + 1) == base * rest + base;
    }
  }

  /** Shifting and masking extracts one digit. */
  lemma {:induction false} Digit(values: seq<nat>, base: nat, i: nat)
    requires base > 0 && i < |values| && forall k :: 0 <= k < |values| ==> values[k] < base
    ensures Pow(base, i) > 0 && Number(values, base) / Pow(base, i) % base == values[i]
    decreases i
  {
    PowPositive(base, i);
    var rest := Number(values[1..], base);
    assert base * rest == rest * base;
    QuotientRemainder(rest, base, values[0]);
    if i > 0 {
      PowPositive(base, i - 1);
      DivideTwice(Number(values, base), base, Pow(base, i - 1));
      Digit(values[1..], base, i - 1);
    }
  }

  lemma FieldIsDigit(values: seq<nat>, width: nat, i: nat)
    requires i < |values| && forall k :: 0 <= k < |values| ==> values[k] < Pow(2, width)
    ensures Field(Number(values, Pow(2, width)), i, width) == values[i]
  {
    PowPositive(2, width);
    Digit(values, Pow(2, width), i);
    PowOfPow(2, width, i);
    assert i * width == width * i;
  }

  lemma Regroup(width: nat, groups: nat)
    ensures 8 * (groups * width) == width * (8 * groups)
  {}

  lemma PackedSize(width: nat, groups: nat)
    ensures Pow(Pow(2, width), 8 * groups) == Pow(256, groups * width)
  {
    MulNonNegative(groups, width);
    PowOfPow(2, width, 8 * groups);
    PowOfPow(2, 8, groups * width);
    assert Pow(2, 8) == 256;
    Regroup(width, groups);
  }

  /** The packed values fit the bytes that the format gives them. */
  lemma PackedFits(values: seq<nat>, width: nat)
    requires Legal(width, Packed(values))
    ensures Number(values, Pow(2, width)) < Pow(256, |values| / 8 * width)
  {
    PowPositive(2, width);
    NumberBound(values, Pow(2, width));
    PackedSize(width, |values| / 8);
  }

  lemma ReadsRepeated(buf: seq<byte>, pos: nat, width: nat, value: nat, times: nat)
    requires value < Pow(256, (width + 7) / 8) && At(buf, pos, Encode(width, Repeated(value, times)))
    ensures ReadRun(buf, pos, width) == Some((seq(times, i => value), pos + |Encode(width, Repeated(value, times))|))
  {
    hide At, FromLE, ToLE, ReadVarint, WriteVarint;
    var header, payload := WriteVarint(2 * times), ToLE(value, (width + 7) / 8);
    AtSplit(buf, pos, header, payload);
    VarintRoundTrip(buf, pos, 2 * times);
    FromToLE(value, (width + 7) / 8);
    SliceAt(buf, pos + |header|, payload);
    if (width + 7) / 8 == 0 { assert Pow(256, 0) == 1; }
  }

  lemma ReadsPacked(buf: seq<byte>, pos: nat, width: nat, values: seq<nat>)
    requires Legal(width, Packed(values)) && At(buf, pos, Encode(width, Packed(values)))
    ensures ReadRun(buf, pos, width) == Some((values, pos + |Encode(width, Packed(values))|))
  {
    hide At, FromLE, ToLE, Number, Field, ReadVarint, WriteVarint;
    var groups := |values| / 8;
    var bits := Number(values, Pow(2, width));
    var header, payload := WriteVarint(2 * groups + 1), ToLE(bits, groups * width);
    AtSplit(buf, pos, header, payload);
    VarintRoundTrip(buf, pos, 2 * groups + 1);
    PackedFits(values, width);
    FromToLE(bits, groups * width);
    SliceAt(buf, pos + |header|, payload);
    forall i | 0 <= i < groups * 8 ensures Field(bits, i, width) == values[i] {
      FieldIsDigit(values, width, i);
    }
    assert seq(groups * 8, i requires 0 <= i < groups * 8 => Field(bits, i, width)) == values;
  }

  lemma ReadsRun(buf: seq<byte>, pos: nat, width: nat, run: Run)
    requires Legal(width, run) && At(buf, pos, Encode(width, run))
    ensures ReadRun(buf, pos, width) == Some((Values(run), pos + |Encode(width, run)|))
  {
    match run
    case Repeated(value, times) => ReadsRepeated(buf, pos, width, value, times);
    case Packed(values) => ReadsPacked(buf, pos, width, values);
  }

  lemma {:induction false} DecodesTail(buf: seq<byte>, pos: nat, width: nat, runs: seq<Run>, count: nat, out: seq<nat>)
    requires forall i :: 0 <= i < |runs| ==> Legal(width, runs[i])
    requires At(buf, pos, EncodeAll(width, runs)) && count <= |out| + |AllValues(runs)|
    ensures var k := Needed(runs, count - |out|);
            k <= |runs| && DecodeFrom(buf, pos, width, count, out)
                        == Ok(((out + AllValues(runs))[..count], pos + |EncodeAll(width, runs[..k])|))
    decreases |runs|
  {
    hide At, Encode, ReadRun;
    if |out| < count {
      var run := runs[0];
      var out' := out + Values(run);
      AtSplit(buf, pos, Encode(width, run), EncodeAll(width, runs[1..]));
      ReadsRun(buf, pos, width, run);
      DecodesTail(buf, pos + |Encode(width, run)|, width, runs[1..], count, out');
      assert out + AllValues(runs) == out' + AllValues(runs[1..]);
      var k := Needed(runs[1..], count - |out'|);
      assert runs[..k + 1][1..] == runs[1..][..k];
    } else {
      assert (out + AllValues(runs))[..count] == out[..count];
    }
  }

  /**
   Decoding any legal mix of runs gives the first `count` of their values, and the position just
   behind the last run that was needed for them.
   */
  lemma DecodeInvertsRuns(buf: seq<byte>, pos: nat, width: nat, runs: seq<Run>, count: nat)
    requires forall i :: 0 <= i < |runs| ==> Legal(width, runs[i])
    requires At(buf, pos, EncodeAll(width, runs)) && count <= |AllValues(runs)|
    ensures Needed(runs, count) <= |runs|
    ensures DecodeFrom(buf, pos, width, count, [])
         == Ok((AllValues(runs)[..count], pos + |EncodeAll(width, runs[..Needed(runs, count)])|))
  {
    hide *;
    DecodesTail(buf, pos, width, runs, count, []);
    assert [] + AllValues(runs) == AllValues(runs);
  }

  /** The runs counted by `Needed` hold `count` values, and one run fewer would not. */
  lemma {:induction false} NeededIsLeast(runs: seq<Run>, count: nat)
    requires count <= |AllValues(runs)|
    ensures var k := Needed(runs, count);
            k <= |runs| && |AllValues(runs[..k])| >= count && (k > 0 ==> |AllValues(runs[..k - 1])| < count)
  {
    if count > 0 {
      var left := count - |Values(runs[0])|;
      if left <= 0 {
        assert runs[..1][1..] == [];
      } else {
        NeededIsLeast(runs[1..], left);
        var k := Needed(runs[1..], left);
        assert runs[..k + 1][1..] == runs[1..][..k];
        assert k > 0 && runs[..k][1..] == runs[1..][..k - 1];
      }
    }
  }
}
