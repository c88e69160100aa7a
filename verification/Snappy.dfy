/**
 Snappy decompression (tools/minimal_parquet_reader.py), against the Snappy format description:
 section 1 (preamble), section 2.1 (literals) and section 2.2 (copies).
 */
module Snappy {
  import opened Wrappers
  import opened Bytes
  import opened Arithmetic

  datatype Error = IndexError | AssertionError

  // ---- The format: what a compressed stream is made of, and what it stands for ----

  /**
   A literal, with the number of extra length bytes its tag announces, or a copy from `offset` bytes
   back, in the one-, two- or four-byte offset form.
   */
  datatype Element =
    | Literal(data: seq<byte>, extra: nat)
    | Copy(form: nat, offset: nat, length: nat)

  /** The ranges of section 2, and an offset that stays within the `have` bytes already produced. */
  ghost predicate Legal(e: Element, have: nat) {
    match e
    case Literal(data, extra) =>
      && data != [] && extra <= 4
      && (extra == 0 ==> |data| <= 60)
      && (extra > 0 ==> |data| - 1 < Pow(256, extra))
    case Copy(form, offset, length) =>
      && 1 <= offset <= have
      && match form
         case 1 => 4 <= length <= 11 && offset < 2048
         case 2 => 1 <= length <= 64 && offset < 65536
         case 4 => 1 <= length <= 64 && offset < 4294967296
         case _ => false
  }

  ghost function Periodic(out: seq<byte>, offset: nat, length: nat): seq<byte>
    requires 1 <= offset <= |out|
  {
    seq(length, i requires 0 <= i < length => out[|out| - offset + i % offset])
  }

  /** A copy longer than its offset goes on repeating the last `offset` bytes. */
  ghost function Expand(out: seq<byte>, e: Element): seq<byte>
    requires Legal(e, |out|)
  {
    match e
    case Literal(data, _) => out + data
    case Copy(_, offset, length) => out + Periodic(out, offset, length)
  }

  ghost predicate AllLegal(out: seq<byte>, es: seq<Element>)
    decreases |es|
  {
    es == [] || (Legal(es[0], |out|) && AllLegal(Expand(out, es[0]), es[1..]))
  }

  ghost function ExpandAll(out: seq<byte>, es: seq<Element>): seq<byte>
    requires AllLegal(out, es)
    decreases |es|
  {
    if es == [] then out else ExpandAll(Expand(out, es[0]), es[1..])
  }

  ghost function Encode(e: Element): seq<byte>
    requires exists have :: Legal(e, have)
  {
    match e
    case Literal(data, extra) =>
      (if extra == 0 then [(|data| - 1) * 4] else [(59 + extra) * 4] + ToLE(|data| - 1, extra)) + data
    case Copy(form, offset, length) =>
      match form
      case 1 => [offset / 256 * 32 + (length - 4) * 4 + 1, offset % 256]
      case 2 => [(length - 1) * 4 + 2] + ToLE(offset, 2)
      case _ => [(length - 1) * 4 + 3] + ToLE(offset, 4)
  }

  ghost function EncodeAll(out: seq<byte>, es: seq<Element>): seq<byte>
    requires AllLegal(out, es)
    decreases |es|
  {
    if es == [] then [] else Encode(es[0]) + EncodeAll(Expand(out, es[0]), es[1..])
  }

  /** The whole stream: the length of the uncompressed data, perhaps padded, then the elements. */
  ghost function Stream(es: seq<Element>, pad: nat): seq<byte>
    requires AllLegal([], es)
  {
    PaddedVarint(|ExpandAll([], es)|, pad) + EncodeAll([], es)
  }

  // ---- The decompressor ----

  /** `out[-o]`: Python reads an offset of zero as the first byte. */
  function Back(out: seq<byte>, o: nat): Option<byte> {
    if o == 0 then if out == [] then None else Some(out[0])
    else if o <= |out| then Some(out[|out| - o])
    else None
  }

  function CopyBack(out: seq<byte>, o: nat, l: nat): Option<seq<byte>>
    decreases l
  {
    if l == 0 then Some(out)
    else match Back(out, o)
      case None => None
      case Some(x) => CopyBack(out + [x], o, l - 1)
  }

  /** A tag byte read at `pos`: a literal's position and length, or a copy's offset, length and end. */
  datatype Tag = LiteralTag(start: nat, length: nat) | CopyTag(offset: nat, length: nat, next: nat)

  function ReadTag(b: seq<byte>, pos: nat): (r: Option<Tag>)
    requires pos < |b|
    ensures r.Some? && r.value.LiteralTag? ==> r.value.start > pos && r.value.length > 0
    ensures r.Some? && r.value.CopyTag? ==> r.value.next > pos
  {
    var t := b[pos];
    match t % 4
    case 0 =>
      if t / 4 < 60 then Some(LiteralTag(pos + 1, t / 4 + 1))
      else
        var nb := t / 4 - 59;
        Some(LiteralTag(pos + 1 + nb, FromLE(Slice(b, pos + 1, pos + 1 + nb)) + 1))
    case 1 =>
      if pos + 1 >= |b| then None
      else Some(CopyTag(BitOr(Shl(t / 32, 8), b[pos + 1]), t / 4 % 8 + 4, pos + 2))
    case 2 => Some(CopyTag(FromLE(Slice(b, pos + 1, pos + 3)), t / 4 + 1, pos + 3))
    case _ => Some(CopyTag(FromLE(Slice(b, pos + 1, pos + 5)), t / 4 + 1, pos + 5))
  }

  function Elements(b: seq<byte>, pos: nat, out: seq<byte>): Option<seq<byte>>
    decreases |b| - pos
  {
    if pos >= |b| then Some(out)
    else match ReadTag(b, pos)
      case None => None
      case Some(LiteralTag(start, length)) => Elements(b, start + length, out + Slice(b, start, start + length))
      case Some(CopyTag(offset, length, next)) =>
        match CopyBack(out, offset, length)
        case None => None
        case Some(out') => Elements(b, next, out')
  }

  function Decompress(b: seq<byte>): Result<seq<byte>, Error> {
    match ReadVarint(b, 0, 0, 0)
    case None => Err(IndexError)
    case Some((n, pos)) =>
      match Elements(b, pos, [])
      case None => Err(IndexError)
      case Some(out) => if |out| == n then Ok(out) else Err(AssertionError)
  }

  method SnappyDecompress(b: seq<byte>) returns (r: Result<seq<byte>, Error>)
    ensures r == Decompress(b)
  {
    hide ReadVarint, ReadTag, Slice, Back;
    var preamble := Varint(b, 0);
    if preamble.None? {
      return Err(IndexError);
    }
    var (n, pos) := preamble.value;
    ghost var start := pos;
    var out: seq<byte> := [];
    while pos < |b|
      invariant Elements(b, pos, out) == Elements(b, start, [])
      decreases |b| - pos
    {
      var tag := ReadTag(b, pos);
      if tag.None? {
        return Err(IndexError);
      }
      match tag.value {
        case LiteralTag(from, length) =>
          out, pos := out + Slice(b, from, from + length), from + length;
        case CopyTag(offset, length, next) =>
          ghost var before := out;
          for i := 0 to length
            invariant CopyBack(out, offset, length - i) == CopyBack(before, offset, length)
          {
            var x := Back(out, offset);
            if x.None? {
              return Err(IndexError);
            }
            out := out + [x.value];
          }
          pos := next;
      }
    }
    if |out| != n {
      return Err(AssertionError);
    }
    r := Ok(out);
  }

  // ---- Decompression inverts the format ----

  lemma LastPeriod(out: seq<byte>, o: nat, done: nat)
    requires 1 <= o <= |out|
    ensures Back(out + Periodic(out, o, done), o) == Some(out[|out| - o + done % o])
  {
    var p := Periodic(out, o, done);
    if done >= o {
      assert (out + p)[|out| + done - o] == p[done - o];
      AddMultiple(done - o, 1, o);
    } else {
      QuotientRemainder(0, o, done);
    }
  }

  lemma PeriodGrows(out: seq<byte>, o: nat, done: nat)
    requires 1 <= o <= |out|
    ensures Periodic(out, o, done + 1) == Periodic(out, o, done) + [out[|out| - o + done % o]]
  {}

  lemma NextByte(out: seq<byte>, o: nat, done: nat)
    requires 1 <= o <= |out|
    ensures var sofar := out + Periodic(out, o, done);
            Back(sofar, o).Some? && sofar + [Back(sofar, o).value] == out + Periodic(out, o, done + 1)
  {
    LastPeriod(out, o, done);
    PeriodGrows(out, o, done);
    var p, x := Periodic(out, o, done), out[|out| - o + done % o];
    assert out + p + [x] == out + (p + [x]);
  }

  /** Copying byte by byte from the growing output repeats the last `o` bytes. */
  lemma {:induction false} CopyIsPeriodic(out: seq<byte>, o: nat, done: nat, l: nat)
    requires 1 <= o <= |out|
    ensures CopyBack(out + Periodic(out, o, done), o, l) == Some(out + Periodic(out, o, done + l))
    decreases l
  {
    if l > 0 {
      hide Periodic;
      NextByte(out, o, done);
      CopyIsPeriodic(out, o, done + 1, l - 1);
    }
  }

  lemma AtByte(b: seq<byte>, pos: nat, x: byte)
    requires At(b, pos, [x])
    ensures pos < |b| && b[pos] == x
  {
    AtFirst(b, pos, [x]);
  }

  lemma ReadsShortLiteral(b: seq<byte>, pos: nat, data: seq<byte>)
    requires 1 <= |data| <= 60 && At(b, pos, [(|data| - 1) * 4] + data)
    ensures pos < |b| && ReadTag(b, pos) == Some(LiteralTag(pos + 1, |data|))
    ensures Slice(b, pos + 1, pos + 1 + |data|) == data
  {
    AtSplit(b, pos, [(|data| - 1) * 4], data);
    AtByte(b, pos, (|data| - 1) * 4);
  }

  lemma TagLengthData(b: seq<byte>, pos: nat, t: byte, length: seq<byte>, data: seq<byte>)
    requires At(b, pos, [t] + length + data)
    ensures pos < |b| && b[pos] == t
    ensures Slice(b, pos + 1, pos + 1 + |length|) == length
    ensures Slice(b, pos + 1 + |length|, pos + 1 + |length| + |data|) == data
  {
    AtSplit(b, pos, [t] + length, data);
    AtSplit(b, pos, [t], length);
    AtByte(b, pos, t);
    SliceAt(b, pos + 1, length);
    SliceAt(b, pos + 1 + |length|, data);
  }

  lemma ReadsLongLiteral(b: seq<byte>, pos: nat, data: seq<byte>, extra: nat)
    requires 1 <= extra <= 4 && 1 <= |data| && |data| - 1 < Pow(256, extra)
    requires At(b, pos, [(59 + extra) * 4] + ToLE(|data| - 1, extra) + data)
    ensures pos < |b| && ReadTag(b, pos) == Some(LiteralTag(pos + 1 + extra, |data|))
    ensures Slice(b, pos + 1 + extra, pos + 1 + extra + |data|) == data
  {
    hide FromLE, ToLE, Pow, At, Slice;
    var t: byte := (59 + extra) * 4;
    var length := ToLE(|data| - 1, extra);
    TagLengthData(b, pos, t, length, data);
    FromToLE(|data| - 1, extra);
    assert t % 4 == 0 && t / 4 == 59 + extra;
  }

  lemma ReadsLiteral(b: seq<byte>, pos: nat, out: seq<byte>, data: seq<byte>, extra: nat)
    requires Legal(Literal(data, extra), |out|) && At(b, pos, Encode(Literal(data, extra)))
    ensures Elements(b, pos, out) == Elements(b, pos + |Encode(Literal(data, extra))|, out + data)
  {
    hide ReadTag, Slice, At;
    if extra == 0 { ReadsShortLiteral(b, pos, data); } else { ReadsLongLiteral(b, pos, data, extra); }
  }

  lemma ShortCopyTag(high: nat, low: nat)
    requires low < 8
    ensures var t := high * 32 + low * 4 + 1; t % 4 == 1 && t / 32 == high && t / 4 % 8 == low
  {}

  lemma {:induction false} OrCommutes(a: nat, b: nat)
    ensures BitOr(a, b) == BitOr(b, a)
    decreases a + b
  {
    if a > 0 || b > 0 { OrCommutes(a / 2, b / 2); }
  }

  /** The high byte comes first in `(t >> 5) << 8 | b[pos]`. */
  lemma OrSwap(high: nat, low: nat)
    requires low < 256
    ensures BitOr(Shl(high, 8), low) == high * 256 + low
  {
    assert Pow(2, 8) == 256;
    OrCommutes(Shl(high, 8), low);
    OrDisjoint(low, high, 8);
  }

  lemma ReadsShortCopy(b: seq<byte>, pos: nat, offset: nat, length: nat)
    requires 4 <= length <= 11 && 1 <= offset < 2048
    requires At(b, pos, [offset / 256 * 32 + (length - 4) * 4 + 1, offset % 256])
    ensures pos < |b| && ReadTag(b, pos) == Some(CopyTag(offset, length, pos + 2))
  {
    hide Shl, BitOr, At;
    var t: byte := offset / 256 * 32 + (length - 4) * 4 + 1;
    assert [t, offset % 256] == [t] + [offset % 256];
    AtSplit(b, pos, [t], [offset % 256]);
    AtByte(b, pos, t);
    AtByte(b, pos + 1, offset % 256);
    ShortCopyTag(offset / 256, length - 4);
    OrSwap(offset / 256, offset % 256);
  }

  lemma ReadsLongCopy(b: seq<byte>, pos: nat, form: nat, offset: nat, length: nat)
    requires 1 <= length <= 64
    requires (form == 2 && offset < 65536) || (form == 4 && offset < 4294967296)
    requires At(b, pos, [(length - 1) * 4 + (if form == 2 then 2 else 3)] + ToLE(offset, form))
    ensures pos < |b| && ReadTag(b, pos) == Some(CopyTag(offset, length, pos + 1 + form))
  {
    var t: seq<byte> := [(length - 1) * 4 + (if form == 2 then 2 else 3)];
    AtSplit(b, pos, t, ToLE(offset, form));
    AtFirst(b, pos, t);
    assert Pow(256, 2) == 65536 && Pow(256, 4) == 4294967296;
    FromToLE(offset, form);
  }

  lemma ReadsCopy(b: seq<byte>, pos: nat, out: seq<byte>, form: nat, offset: nat, length: nat)
    requires Legal(Copy(form, offset, length), |out|) && At(b, pos, Encode(Copy(form, offset, length)))
    ensures Elements(b, pos, out)
         == Elements(b, pos + |Encode(Copy(form, offset, length))|, out + Periodic(out, offset, length))
  {
    hide ReadTag, Slice, At;
    CopyIsPeriodic(out, offset, 0, length);
    assert out + Periodic(out, offset, 0) == out;
    if form == 1 { ReadsShortCopy(b, pos, offset, length); } else { ReadsLongCopy(b, pos, form, offset, length); }
  }

  /** One encoded element is read back as that element. */
  lemma ReadsElement(b: seq<byte>, pos: nat, out: seq<byte>, e: Element)
    requires Legal(e, |out|) && At(b, pos, Encode(e))
    ensures Elements(b, pos, out) == Elements(b, pos + |Encode(e)|, Expand(out, e))
  {
    hide Elements, At, Slice, ReadTag, Periodic, ToLE;
    match e
    case Literal(data, extra) => ReadsLiteral(b, pos, out, data, extra);
    case Copy(form, offset, length) => ReadsCopy(b, pos, out, form, offset, length);
  }

  lemma {:induction false} ReadsElements(b: seq<byte>, pos: nat, out: seq<byte>, es: seq<Element>)
    requires AllLegal(out, es) && At(b, pos, EncodeAll(out, es)) && pos + |EncodeAll(out, es)| == |b|
    ensures Elements(b, pos, out) == Some(ExpandAll(out, es))
    decreases |es|
  {
    hide Encode, Expand, ReadTag;
    if es != [] {
      AtSplit(b, pos, Encode(es[0]), EncodeAll(Expand(out, es[0]), es[1..]));
      ReadsElement(b, pos, out, es[0]);
      ReadsElements(b, pos + |Encode(es[0])|, Expand(out, es[0]), es[1..]);
    }
  }

  /** Decompressing any legal stream yields exactly the data its elements describe. */
  lemma DecompressInvertsStream(es: seq<Element>, pad: nat)
    requires AllLegal([], es)
    ensures Decompress(Stream(es, pad)) == Ok(ExpandAll([], es))
  {
    hide Elements, ReadVarint, PaddedVarint, Legal, Expand, Encode;
    var b := Stream(es, pad);
    var preamble := PaddedVarint(|ExpandAll([], es)|, pad);
    assert b[0..|b|] == b;
    AtSplit(b, 0, preamble, EncodeAll([], es));
    PaddedRoundTrip(b, 0, |ExpandAll([], es)|, pad);
    ReadsElements(b, |preamble|, [], es);
  }

  // ---- What else is accepted ----

  /** The tag at `pos` is there with all it announces, and a copy's offset is not zero. */
  ghost predicate WholeTag(b: seq<byte>, pos: nat)
    requires pos < |b|
  {
    match ReadTag(b, pos)
    case None => false
    case Some(LiteralTag(start, length)) => start + length <= |b|
    case Some(CopyTag(offset, length, next)) => offset >= 1 && next <= |b|
  }

  ghost function NextTag(b: seq<byte>, pos: nat): (next: nat)
    requires pos < |b| && WholeTag(b, pos)
    ensures pos < next <= |b|
  {
    match ReadTag(b, pos).value
    case LiteralTag(start, length) => start + length
    case CopyTag(_, _, next) => next
  }

  ghost predicate Whole(b: seq<byte>, pos: nat)
    decreases |b| - pos
  {
    pos >= |b| || (WholeTag(b, pos) && Whole(b, NextTag(b, pos)))
  }

  ghost function ElementAt(b: seq<byte>, pos: nat): Element
    requires pos < |b| && WholeTag(b, pos)
  {
    match ReadTag(b, pos).value
    case LiteralTag(start, length) => Literal(Slice(b, start, start + length), start - pos - 1)
    case CopyTag(offset, length, _) => Copy(if b[pos] % 4 == 1 then 1 else if b[pos] % 4 == 2 then 2
      else 4, offset, length)
  }

  /** The elements that a stream with nothing missing is made of. */
  ghost function ElementsIn(b: seq<byte>, pos: nat): seq<Element>
    requires Whole(b, pos)
    decreases |b| - pos
  {
    if pos >= |b| then [] else [ElementAt(b, pos)] + ElementsIn(b, NextTag(b, pos))
  }

  lemma ShortLiteralAt(b: seq<byte>, pos: nat)
    requires pos < |b| && WholeTag(b, pos) && b[pos] % 4 == 0 && b[pos] / 4 < 60
    ensures var e := ElementAt(b, pos); Legal(e, 0) && At(b, pos, Encode(e)) && pos + |Encode(e)| == NextTag(b, pos)
  {
    var length := b[pos] / 4 + 1;
    var data := b[pos + 1..pos + 1 + length];
    assert ElementAt(b, pos) == Literal(data, 0) && Legal(Literal(data, 0), 0);
    assert (length - 1) * 4 == b[pos];
    assert b[pos..pos + 1 + length] == [b[pos]] + data;
  }

  lemma LongLiteralAt(b: seq<byte>, pos: nat)
    requires pos < |b| && WholeTag(b, pos) && b[pos] % 4 == 0 && b[pos] / 4 >= 60
    ensures var e := ElementAt(b, pos); Legal(e, 0) && At(b, pos, Encode(e)) && pos + |Encode(e)| == NextTag(b, pos)
  {
    hide FromLE, ToLE, Pow;
    var extra := b[pos] / 4 - 59;
    var bytes := b[pos + 1..pos + 1 + extra];
    var start, length := pos + 1 + extra, FromLE(bytes) + 1;
    ToFromLE(bytes);
    var data := b[start..start + length];
    assert ElementAt(b, pos) == Literal(data, extra) && Legal(Literal(data, extra), 0);
    assert (59 + extra) * 4 == b[pos];
    assert b[pos..start + length] == [b[pos]] + bytes + data;
  }

  lemma ShortCopyBytes(t: nat, low: nat)
    requires t < 256 && low < 256 && t % 4 == 1
    ensures var offset: nat, length: nat := t / 32 * 256 + low, t / 4 % 8 + 4;
            offset < 2048 && offset / 256 * 32 + (length - 4) * 4 + 1 == t && offset % 256 == low
  {}

  lemma ShortCopyAt(b: seq<byte>, pos: nat, have: nat)
    requires pos < |b| && WholeTag(b, pos) && b[pos] % 4 == 1
    requires var e := ElementAt(b, pos); e.Copy? && e.offset <= have
    ensures var e := ElementAt(b, pos); Legal(e, have) && At(b, pos, Encode(e)) && pos + |Encode(e)| == NextTag(b, pos)
  {
    hide Shl, BitOr;
    var t: nat, low: nat := b[pos], b[pos + 1];
    OrSwap(t / 32, low);
    var offset: nat, length: nat := t / 32 * 256 + low, t / 4 % 8 + 4;
    assert ElementAt(b, pos) == Copy(1, offset, length);
    ShortCopyBytes(t, low);
    assert b[pos..pos + 2] == [t, low];
  }

  lemma PowersOf256()
    ensures Pow(256, 2) == 65536 && Pow(256, 4) == 4294967296
  {}

  lemma LongCopyAt(b: seq<byte>, pos: nat, have: nat)
    requires pos < |b| && WholeTag(b, pos) && b[pos] % 4 >= 2
    requires var e := ElementAt(b, pos); e.Copy? && e.offset <= have
    ensures var e := ElementAt(b, pos); Legal(e, have) && At(b, pos, Encode(e)) && pos + |Encode(e)| == NextTag(b, pos)
  {
    hide FromLE, ToLE, Pow;
    var t := b[pos];
    var form := if t % 4 == 2 then 2 else 4;
    var bytes := b[pos + 1..pos + 1 + form];
    ToFromLE(bytes);
    PowersOf256();
    assert ElementAt(b, pos) == Copy(form, FromLE(bytes), t / 4 + 1);
    assert t / 4 * 4 + t % 4 == t;
    assert b[pos..pos + 1 + form] == [t] + bytes;
  }

  /** A copy that succeeds does not reach back beyond the start. */
  lemma CopyInRange(b: seq<byte>, pos: nat, out: seq<byte>)
    requires pos < |b| && WholeTag(b, pos) && Elements(b, pos, out).Some? && b[pos] % 4 != 0
    ensures ElementAt(b, pos).Copy? && ElementAt(b, pos).offset <= |out|
  {
    hide FromLE, Shl, BitOr, Slice;
  }

  /** A complete tag that decompresses is a legal element, encoded just as the format says. */
  lemma ReadsLegally(b: seq<byte>, pos: nat, out: seq<byte>)
    requires pos < |b| && WholeTag(b, pos) && Elements(b, pos, out).Some?
    ensures var e := ElementAt(b, pos);
            && Legal(e, |out|) && At(b, pos, Encode(e)) && pos + |Encode(e)| == NextTag(b, pos)
            && Elements(b, pos, out) == Elements(b, NextTag(b, pos), Expand(out, e))
  {
    hide At, Encode, Expand, Elements, ReadTag, WholeTag, NextTag, ElementAt;
    if b[pos] % 4 == 0 {
      if b[pos] / 4 < 60 { ShortLiteralAt(b, pos); } else { LongLiteralAt(b, pos); }
    } else {
      CopyInRange(b, pos, out);
      if b[pos] % 4 == 1 { ShortCopyAt(b, pos, |out|); } else { LongCopyAt(b, pos, |out|); }
    }
    ReadsElement(b, pos, out, ElementAt(b, pos));
  }

  /** A whole stream that decompresses is the encoding of legal elements, and stands for what came out. */
  lemma {:induction false} WholeIsLegal(b: seq<byte>, pos: nat, out: seq<byte>)
    requires pos <= |b| && Whole(b, pos) && Elements(b, pos, out).Some?
    ensures var es := ElementsIn(b, pos);
            AllLegal(out, es) && EncodeAll(out, es) == b[pos..] && Some(ExpandAll(out, es)) == Elements(b, pos, out)
    decreases |b| - pos
  {
    hide ElementAt, Encode, Expand, ReadTag, WholeTag, NextTag, Legal;
    if pos < |b| {
      var e, next := ElementAt(b, pos), NextTag(b, pos);
      ReadsLegally(b, pos, out);
      WholeIsLegal(b, next, Expand(out, e));
      assert b[pos..] == b[pos..next] + b[next..];
    }
  }

  lemma Within(b: seq<byte>, pos: nat, part: seq<byte>)
    requires At(b, pos, part)
    ensures pos + |part| <= |b|
  {}

  lemma LegalLiteralIsWhole(b: seq<byte>, pos: nat, data: seq<byte>, extra: nat, have: nat)
    requires Legal(Literal(data, extra), have) && At(b, pos, Encode(Literal(data, extra)))
    ensures pos < |b| && WholeTag(b, pos) && NextTag(b, pos) == pos + |Encode(Literal(data, extra))|
  {
    hide ReadTag, ToLE, At, Pow, Slice;
    Within(b, pos, Encode(Literal(data, extra)));
    if extra == 0 { ReadsShortLiteral(b, pos, data); } else { ReadsLongLiteral(b, pos, data, extra); }
  }

  lemma LegalCopyIsWhole(b: seq<byte>, pos: nat, form: nat, offset: nat, length: nat, have: nat)
    requires Legal(Copy(form, offset, length), have) && At(b, pos, Encode(Copy(form, offset, length)))
    ensures pos < |b| && WholeTag(b, pos) && NextTag(b, pos) == pos + |Encode(Copy(form, offset, length))|
  {
    hide ReadTag, ToLE, At;
    Within(b, pos, Encode(Copy(form, offset, length)));
    if form == 1 { ReadsShortCopy(b, pos, offset, length); } else { ReadsLongCopy(b, pos, form, offset, length); }
  }

  lemma LegalTagIsWhole(b: seq<byte>, pos: nat, e: Element, have: nat)
    requires Legal(e, have) && At(b, pos, Encode(e))
    ensures pos < |b| && WholeTag(b, pos) && NextTag(b, pos) == pos + |Encode(e)|
  {
    hide Encode, Legal, At, WholeTag, NextTag;
    match e
    case Literal(data, extra) => LegalLiteralIsWhole(b, pos, data, extra, have);
    case Copy(form, offset, length) => LegalCopyIsWhole(b, pos, form, offset, length, have);
  }

  lemma {:induction false} LegalIsWhole(b: seq<byte>, pos: nat, out: seq<byte>, es: seq<Element>)
    requires AllLegal(out, es) && pos <= |b| && EncodeAll(out, es) == b[pos..]
    ensures Whole(b, pos)
    decreases |es|
  {
    hide Encode, Expand, ReadTag, WholeTag, NextTag, Legal;
    if es != [] {
      var code, rest := Encode(es[0]), EncodeAll(Expand(out, es[0]), es[1..]);
      assert b[pos..] == code + rest;
      assert b[pos..pos + |code|] == code && b[pos + |code|..] == rest;
      LegalTagIsWhole(b, pos, es[0], |out|);
      LegalIsWhole(b, pos + |code|, Expand(out, es[0]), es[1..]);
    }
  }

  lemma AcceptedIsWritten(b: seq<byte>, n: nat, pos: nat, out: seq<byte>)
    requires ReadVarint(b, 0, 0, 0) == Some((n, pos)) && Decompress(b) == Ok(out) && Whole(b, pos)
    ensures exists es, pad :: AllLegal([], es) && b == Stream(es, pad)
  {
    hide Whole, AllLegal, EncodeAll, ExpandAll, Elements, ReadVarint, PaddedVarint;
    WholeIsLegal(b, pos, []);
    EveryVarintIsPadded(b, n, pos);
    var es, pad :| es == ElementsIn(b, pos) && b[..pos] == PaddedVarint(n, pad);
    assert b == b[..pos] + b[pos..];
    assert b == Stream(es, pad);
  }

  lemma WrittenIsWhole(es: seq<Element>, pad: nat)
    requires AllLegal([], es)
    ensures var b := Stream(es, pad);
            ReadVarint(b, 0, 0, 0).Some? && Whole(b, ReadVarint(b, 0, 0, 0).value.1)
  {
    hide AllLegal, EncodeAll, ExpandAll, Elements, ReadVarint, PaddedVarint, Whole;
    var b, preamble := Stream(es, pad), PaddedVarint(|ExpandAll([], es)|, pad);
    assert b[0..|b|] == b;
    AtSplit(b, 0, preamble, EncodeAll([], es));
    PaddedRoundTrip(b, 0, |ExpandAll([], es)|, pad);
    assert b[|preamble|..] == EncodeAll([], es);
    LegalIsWhole(b, |preamble|, [], es);
  }

  /**
   Of what the decompressor accepts, the legal streams are exactly those in which no element is cut short and no
   offset is zero; and then the output is what the elements stand for.
   */
  lemma AcceptedIsLegalExactlyWhen(b: seq<byte>, n: nat, pos: nat, out: seq<byte>)
    requires ReadVarint(b, 0, 0, 0) == Some((n, pos)) && Decompress(b) == Ok(out)
    ensures Whole(b, pos) <==> exists es, pad :: AllLegal([], es) && b == Stream(es, pad)
    ensures forall es, pad :: AllLegal([], es) && b == Stream(es, pad) ==> ExpandAll([], es) == out
  {
    hide Whole, ElementsIn, AllLegal, EncodeAll, ExpandAll, Elements, ReadVarint, PaddedVarint;
    if Whole(b, pos) {
      AcceptedIsWritten(b, n, pos, out);
    }
    forall es, pad | AllLegal([], es) && b == Stream(es, pad) ensures ExpandAll([], es) == out && Whole(b, pos) {
      DecompressInvertsStream(es, pad);
      WrittenIsWhole(es, pad);
    }
  }

  lemma SmallPreamble(b: seq<byte>)
    requires b != [] && b[0] < 128
    ensures ReadVarint(b, 0, 0, 0) == Some((b[0], 1))
  {
    OrZero(b[0]);
    assert Shl(b[0], 0) == b[0];
  }

  lemma ShortTags(b: seq<byte>, pos: nat, length: nat)
    requires pos < |b| && 1 <= length <= 60
    ensures b[pos] == (length - 1) * 4 ==> ReadTag(b, pos) == Some(LiteralTag(pos + 1, length))
    ensures b[pos] == 2 ==> ReadTag(b, pos) == Some(CopyTag(FromLE(Slice(b, pos + 1, pos + 3)), 1, pos + 3))
  {
    hide FromLE, Shl, BitOr, Slice;
  }

  lemma LiteralStep(b: seq<byte>, pos: nat, out: seq<byte>, length: nat, data: seq<byte>)
    requires pos < |b| && b[pos] == (length - 1) * 4 && 1 <= length <= 60 && Slice(b, pos + 1, pos + 1 + length) == data
    ensures Elements(b, pos, out) == Elements(b, pos + 1 + length, out + data)
    ensures WholeTag(b, pos) <==> pos + 1 + length <= |b|
    ensures WholeTag(b, pos) ==> NextTag(b, pos) == pos + 1 + length
  {
    hide ReadTag, Slice;
    ShortTags(b, pos, length);
  }

  /** A one-byte copy with a two-byte offset. */
  lemma CopyStep(b: seq<byte>, pos: nat, out: seq<byte>, offset: nat, x: byte)
    requires pos < |b| && b[pos] == 2 && FromLE(Slice(b, pos + 1, pos + 3)) == offset && Back(out, offset) == Some(x)
    ensures Elements(b, pos, out) == Elements(b, pos + 3, out + [x])
    ensures WholeTag(b, pos) <==> offset >= 1 && pos + 3 <= |b|
  {
    hide FromLE, Back, ReadTag, Slice;
    ShortTags(b, pos, 1);
    assert CopyBack(out, offset, 1) == Some(out + [x]);
  }

  lemma AtTheEnd(b: seq<byte>, pos: nat, out: seq<byte>)
    requires pos >= |b|
    ensures Elements(b, pos, out) == Some(out)
  {}

  lemma SmallNumbers()
    ensures FromLE([]) == 0 && FromLE([0, 0]) == 0 && FromLE([1]) == 1
  {
    assert [0, 0][1..] == [0] && [0][1..] == [] && [1][1..] == [];
  }

  /** A copy with offset zero is taken and repeats the first byte. */
  lemma ZeroOffsetAccepted()
    ensures Decompress([2, 0, 97, 2, 0, 0]) == Ok([97, 97]) && !Whole([2, 0, 97, 2, 0, 0], 1)
  {
    hide ReadVarint, Elements, Slice, FromLE, ReadTag, WholeTag, NextTag;
    var b: seq<byte> := [2, 0, 97, 2, 0, 0];
    assert b[2..3] == [97] == [] + [97] && b[4..6] == [0, 0] && [97] + [97] == [97, 97];
    SmallPreamble(b);
    SmallNumbers();
    LiteralStep(b, 1, [], 1, [97]);
    CopyStep(b, 3, [97], 0, 97);
    AtTheEnd(b, 6, [97, 97]);
    assert Whole(b, 1) ==> Whole(b, 3);
  }

  /** A literal announced as two bytes of which one is there. */
  lemma CutLiteralAccepted()
    ensures Decompress([1, 4, 97]) == Ok([97]) && !Whole([1, 4, 97], 1)
  {
    hide ReadVarint, Elements, FromLE, ReadTag, WholeTag, NextTag;
    var b: seq<byte> := [1, 4, 97];
    assert b[2..] == [97] == [] + [97];
    SmallPreamble(b);
    LiteralStep(b, 1, [], 2, [97]);
    AtTheEnd(b, 4, [97]);
  }

  /** A two-byte offset of which one byte is there. */
  lemma CutOffsetAccepted()
    ensures Decompress([2, 0, 97, 2, 1]) == Ok([97, 97]) && !Whole([2, 0, 97, 2, 1], 1)
  {
    hide ReadVarint, Elements, FromLE, ReadTag, WholeTag, NextTag;
    var b: seq<byte> := [2, 0, 97, 2, 1];
    assert b[2..3] == [97] == [] + [97] && b[4..] == [1] && [97] + [97] == [97, 97];
    SmallPreamble(b);
    SmallNumbers();
    LiteralStep(b, 1, [], 1, [97]);
    CopyStep(b, 3, [97], 1, 97);
    AtTheEnd(b, 6, [97, 97]);
    assert Whole(b, 1) ==> Whole(b, 3);
  }
}
