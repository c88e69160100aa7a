/**
 The Thrift compact-protocol reader (class TR of tools/minimal_parquet_reader.py), against the Thrift
 Compact Protocol specification, section "Struct encoding".
 */
module Thrift {
  import opened Wrappers
  import opened Bytes

  /** What the reader returns. A double is kept as its eight bytes. */
  datatype Value =
    | Bool(b: bool)
    | Byte(x: byte)
    | Int(v: int)
    | Double(raw: seq<byte>)
    | Binary(data: seq<byte>)
    | List(elems: seq<Value>)
    | Struct(fields: map<int, Value>)

  datatype Error = IndexError | UnpackError | UnknownType(t: nat)

  // ---- The reader ----

  function Left(buf: seq<byte>, pos: nat): nat {
    if pos < |buf| then |buf| - pos else 0
  }

  function ReadInt(buf: seq<byte>, pos: nat): (r: Result<(Value, nat), Error>)
    ensures r.Ok? ==> pos < |buf| && pos < r.value.1
  {
    match ReadVarint(buf, pos, 0, 0)
    case None => Err(IndexError)
    case Some((n, p)) => Ok((Int(UnZigZag(n)), p))
  }

  /** The header of a list or set: its size, its element type, and where the elements start. */
  function ReadSize(buf: seq<byte>, pos: nat): (r: Option<(nat, nat, nat)>)
    ensures r.Some? ==> pos < |buf| && pos < r.value.2
  {
    if pos >= |buf| then None
    else
      var n, et := buf[pos] / 16, buf[pos] % 16;
      if n != 15 then Some((n, et, pos + 1))
      else match ReadVarint(buf, pos + 1, 0, 0)
        case None => None
        case Some((n, p)) => Some((n, et, p))
  }

  /** The loop over the `n` elements still to come. */
  function ReadElems(buf: seq<byte>, pos: nat, n: nat, et: nat, out: seq<Value>): (r: Result<(Value, nat), Error>)
    ensures r.Ok? ==> pos <= r.value.1
    decreases Left(buf, pos), 2
  {
    if n == 0 then Ok((List(out), pos))
    else if et == 1 || et == 2 then
      if pos < |buf| then ReadElems(buf, pos + 1, n - 1, et, out + [Bool(buf[pos] == 1)]) else Err(IndexError)
    else match ReadVal(buf, pos, et)
      case Err(e) => Err(e)
      case Ok((v, p)) => ReadElems(buf, p, n - 1, et, out + [v])
  }

  function ReadSized(buf: seq<byte>, pos: nat): (r: Result<(Value, nat), Error>)
    ensures r.Ok? ==> pos < |buf| && pos < r.value.1
    decreases Left(buf, pos), 0
  {
    match ReadSize(buf, pos)
    case None => Err(IndexError)
    case Some((n, et, p)) => ReadElems(buf, p, n, et, [])
  }

  /** A field header carries the distance from the last id, or zero and then the id itself. */
  function ReadFieldId(buf: seq<byte>, pos: nat, last: int): (r: Option<(int, nat)>)
    requires pos < |buf|
    ensures r.Some? ==> pos < r.value.1
  {
    var dl := buf[pos] / 16;
    if dl != 0 then Some((last + dl, pos + 1))
    else match ReadVarint(buf, pos + 1, 0, 0)
      case None => None
      case Some((n, p)) => Some((UnZigZag(n), p))
  }

  /** `TR.struct`: the fields still to come, after the one with id `last`. */
  function ReadStruct(buf: seq<byte>, pos: nat, last: int, d: map<int, Value>): (r: Result<(Value, nat), Error>)
    ensures r.Ok? ==> pos < |buf| && pos < r.value.1
    decreases Left(buf, pos), 0
  {
    if pos >= |buf| then Err(IndexError)
    else if buf[pos] == 0 then Ok((Struct(d), pos + 1))
    else match ReadFieldId(buf, pos, last)
      case None => Err(IndexError)
      case Some((id, p)) =>
        var t := buf[pos] % 16;
        if t == 1 || t == 2 then ReadStruct(buf, p, id, d[id := Bool(t == 1)])
        else match ReadVal(buf, p, t)
          case Err(e) => Err(e)
          case Ok((v, q)) => ReadStruct(buf, q, id, d[id := v])
  }

  /** `TR.val`: a value of wire type `t` at `pos`, with the position behind it. */
  function ReadVal(buf: seq<byte>, pos: nat, t: nat): (r: Result<(Value, nat), Error>)
    ensures r.Ok? && t != 1 && t != 2 ==> pos < |buf| && pos < r.value.1
    decreases Left(buf, pos), 1
  {
    match t
    case 1 => Ok((Bool(true), pos))
    case 2 => Ok((Bool(false), pos))
    case 3 => if pos < |buf| then Ok((Byte(buf[pos]), pos + 1)) else Err(IndexError)
    case 4 => ReadInt(buf, pos)
    case 5 => ReadInt(buf, pos)
    case 6 => ReadInt(buf, pos)
    case 7 => if pos + 8 <= |buf| then Ok((Double(buf[pos..pos + 8]), pos + 8)) else Err(UnpackError)
    case 8 =>
      (match ReadVarint(buf, pos, 0, 0)
       case None => Err(IndexError)
       case Some((n, p)) => Ok((Binary(Slice(buf, p, p + n)), p + n)))
    case 9 => ReadSized(buf, pos)
    case 10 => ReadSized(buf, pos)
    case 12 => ReadStruct(buf, pos, 0, map[])
    case _ => Err(UnknownType(t))
  }

  /** The cursor of the original: every method moves `pos`. */
  class Reader {
    const buf: seq<byte>
    var pos: nat

    constructor (buf: seq<byte>, pos: nat)
      ensures this.buf == buf && this.pos == pos
    {
      this.buf, this.pos := buf, pos;
    }

    /** The outcome of reading, and the cursor behind what was read. */
    ghost predicate Matches(r: Result<Value, Error>, spec: Result<(Value, nat), Error>)
      reads this
    {
      match spec
      case Ok((v, p)) => r == Ok(v) && pos == p
      case Err(e) => r == Err(e)
    }

    method ReadVarintHere() returns (r: Option<nat>)
      modifies this
      ensures match ReadVarint(buf, old(pos), 0, 0)
              case None => r.None?
              case Some((n, p)) => r == Some(n) && pos == p
    {
      var v := Varint(buf, pos);
      match v {
        case None => r := None;
        case Some((n, p)) => r, pos := Some(n), p;
      }
    }

    method Sized() returns (r: Result<Value, Error>)
      modifies this
      ensures Matches(r, ReadSized(buf, old(pos)))
      decreases Left(buf, pos), 0
    {
      if pos >= |buf| { return Err(IndexError); }
      var h := buf[pos];
      pos := pos + 1;
      var n, et := h / 16, h % 16;
      if n == 15 {
        var size := ReadVarintHere();
        if size.None? { return Err(IndexError); }
        n := size.value;
      }
      ghost var start := pos;
      var out: seq<Value> := [];
      for k := 0 to n
        invariant pos >= start
        invariant ReadElems(buf, pos, n - k, et, out) == ReadElems(buf, start, n, et, [])
      {
        if et == 1 || et == 2 {
          if pos >= |buf| { return Err(IndexError); }
          out, pos := out + [Bool(buf[pos] == 1)], pos + 1;
        } else {
          var v := Val(et);
          if v.Err? { return v; }
          out := out + [v.value];
        }
      }
      r := Ok(List(out));
    }

    method ReadFields() returns (r: Result<Value, Error>)
      modifies this
      ensures Matches(r, ReadStruct(buf, old(pos), 0, map[]))
      decreases Left(buf, pos), 0
    {
      ghost var start := pos;
      var d: map<int, Value>, last := map[], 0;
      while true
        invariant pos >= start
        invariant ReadStruct(buf, pos, last, d) == ReadStruct(buf, start, 0, map[])
        decreases Left(buf, pos)
      {
        if pos >= |buf| { return Err(IndexError); }
        var h := buf[pos];
        pos := pos + 1;
        if h == 0 { break; }
        var dl, t := h / 16, h % 16;
        var id := last + dl;
        if dl == 0 {
          var n := ReadVarintHere();
          if n.None? { return Err(IndexError); }
          id := UnZigZag(n.value);
        }
        last := id;
        if t == 1 || t == 2 {
          d := d[id := Bool(t == 1)];
        } else {
          var v := Val(t);
          if v.Err? { return v; }
          d := d[id := v.value];
        }
      }
      r := Ok(Struct(d));
    }

    method Val(t: nat) returns (r: Result<Value, Error>)
      modifies this
      ensures Matches(r, ReadVal(buf, old(pos), t))
      decreases Left(buf, pos), 1
    {
      if t == 1 || t == 2 {
        r := Ok(Bool(t == 1));
      } else if t == 3 {
        if pos >= |buf| { return Err(IndexError); }
        r, pos := Ok(Byte(buf[pos])), pos + 1;
      } else if t == 4 || t == 5 || t == 6 {
        var n := ReadVarintHere();
        r := if n.None? then Err(IndexError) else Ok(Int(UnZigZag(n.value)));
      } else if t == 7 {
        if pos + 8 > |buf| { return Err(UnpackError); }
        r, pos := Ok(Double(buf[pos..pos + 8])), pos + 8;
      } else if t == 8 {
        var n := ReadVarintHere();
        if n.None? { return Err(IndexError); }
        r, pos := Ok(Binary(Slice(buf, pos, pos + n.value))), pos + n.value;
      } else if t == 9 || t == 10 {
        r := Sized();
      } else if t == 12 {
        r := ReadFields();
      } else {
        r := Err(UnknownType(t));
      }
    }
  }

  // ---- The format ----

  datatype Field = Field(id: int, item: Item, long: bool)

  /**
   What a writer puts on the wire: with Booleans the byte that stands for them in a list, where writers differ about
   false, with integers their width, with headers the chosen form.
   */
  datatype Item =
    | PutBool(b: bool, inList: byte)
    | PutByte(x: byte)
    | PutInt(width: nat, v: int)
    | PutDouble(raw: seq<byte>)
    | PutBinary(data: seq<byte>)
    | PutList(isSet: bool, elemType: nat, items: seq<Item>, long: bool)
    | PutStruct(fields: seq<Field>)

  function TypeOf(item: Item): nat {
    match item
    case PutBool(b, _) => if b then 1 else 2
    case PutByte(_) => 3
    case PutInt(width, _) => width
    case PutDouble(_) => 7
    case PutBinary(_) => 8
    case PutList(isSet, _, _, _) => if isSet then 10 else 9
    case PutStruct(_) => 12
  }

  /** All elements have the announced type, in which both Booleans count as one. */
  ghost predicate LegalItems(items: seq<Item>, et: nat)
    decreases items, 0
  {
    items == []
    || (Legal(items[0]) && (if et == 1 || et == 2 then items[0].PutBool? else TypeOf(items[0]) == et
                                                                              && !items[0].PutBool?)
        && LegalItems(items[1..], et))
  }

  /** The short form is for ids one to fifteen above the one before. */
  ghost predicate LegalFields(fields: seq<Field>, last: int)
    decreases fields, 0
  {
    fields == []
    || assert (fields decreases to fields[0]);
       (Legal(fields[0].item) && (fields[0].long || 1 <= fields[0].id - last <= 15)
        && LegalFields(fields[1..], fields[0].id))
  }

  ghost predicate Legal(item: Item)
    decreases item, 1
  {
    match item
    case PutBool(b, inList) => if b then inList == 1 else inList == 0 || inList == 2
    case PutInt(width, _) => 4 <= width <= 6
    case PutDouble(raw) => |raw| == 8
    case PutList(_, et, items, long) => et < 16 && (long || |items| < 15) && LegalItems(items, et)
    case PutStruct(fields) => LegalFields(fields, 0)
    case _ => true
  }

  ghost function ListHeader(n: nat, et: nat, long: bool): seq<byte>
    requires et < 16 && (long || n < 15)
  {
    if long then [240 + et] + WriteVarint(n) else [n * 16 + et]
  }

  ghost function EncodeElem(item: Item): seq<byte>
    requires Legal(item)
    decreases item, 2
  {
    if item.PutBool? then [item.inList] else Encode(item)
  }

  ghost function EncodeItems(items: seq<Item>, et: nat): seq<byte>
    requires LegalItems(items, et)
    decreases items, 0
  {
    if items == [] then []
    else EncodeElem(items[0]) + EncodeItems(items[1..], et)
  }

  ghost function FieldHeader(field: Field, last: int): seq<byte>
    requires Legal(field.item) && (field.long || 1 <= field.id - last <= 15)
  {
    if field.long then [TypeOf(field.item)] + WriteVarint(ZigZag(field.id))
    else [(field.id - last) * 16 + TypeOf(field.item)]
  }

  ghost function EncodeFields(fields: seq<Field>, last: int): seq<byte>
    requires LegalFields(fields, last)
    decreases fields, 0
  {
    if fields == [] then [0]
    else
      assert (fields decreases to fields[0]);
      FieldHeader(fields[0], last) + Encode(fields[0].item) + EncodeFields(fields[1..], fields[0].id)
  }

  ghost function Encode(item: Item): seq<byte>
    requires Legal(item)
    decreases item, 1
  {
    match item
    case PutBool(_, _) => []
    case PutByte(x) => [x]
    case PutInt(_, v) => WriteVarint(ZigZag(v))
    case PutDouble(raw) => raw
    case PutBinary(data) => WriteVarint(|data|) + data
    case PutList(_, et, items, long) => ListHeader(|items|, et, long) + EncodeItems(items, et)
    case PutStruct(fields) => EncodeFields(fields, 0)
  }

  ghost function Meanings(items: seq<Item>): seq<Value>
    decreases items, 0
  {
    if items == [] then [] else [Meaning(items[0])] + Meanings(items[1..])
  }

  /** The field map; where an id is written twice the later value counts. */
  ghost function FieldMap(fields: seq<Field>, d: map<int, Value>): map<int, Value>
    decreases fields, 0
  {
    if fields == [] then d
    else
      assert (fields decreases to fields[0]);
      FieldMap(fields[1..], d[fields[0].id := Meaning(fields[0].item)])
  }

  ghost function Meaning(item: Item): Value
    decreases item, 1
  {
    match item
    case PutBool(b, _) => Bool(b)
    case PutByte(x) => Byte(x)
    case PutInt(_, v) => Int(v)
    case PutDouble(raw) => Double(raw)
    case PutBinary(data) => Binary(data)
    case PutList(_, _, items, _) => List(Meanings(items))
    case PutStruct(fields) => Struct(FieldMap(fields, map[]))
  }

  // ---- Reading inverts writing ----

  lemma ReadsHeader(buf: seq<byte>, pos: nat, n: nat, et: nat, long: bool)
    requires et < 16 && (long || n < 15) && At(buf, pos, ListHeader(n, et, long))
    ensures ReadSize(buf, pos) == Some((n, et, pos + |ListHeader(n, et, long)|))
  {
    hide At, ReadVarint, WriteVarint;
    if long {
      AtSplit(buf, pos, [240 + et], WriteVarint(n));
      AtFirst(buf, pos, [240 + et]);
      VarintRoundTrip(buf, pos + 1, n);
    } else {
      AtFirst(buf, pos, [n * 16 + et]);
    }
  }

  lemma BoolInList(item: Item)
    requires Legal(item) && item.PutBool?
    ensures item.inList == 1 <==> item.b
  {}

  /** One step of the element loop. */
  lemma StepsItem(buf: seq<byte>, pos: nat, n: nat, item: Item, et: nat, out: seq<Value>)
    requires Legal(item) && (if et == 1 || et == 2 then item.PutBool? else TypeOf(item) == et && !item.PutBool?)
    requires At(buf, pos, EncodeElem(item)) && n > 0
    requires !item.PutBool? ==> ReadVal(buf, pos, TypeOf(item)) == Ok((Meaning(item), pos + |Encode(item)|))
    ensures ReadElems(buf, pos, n, et, out)
      == ReadElems(buf, pos + |EncodeElem(item)|, n - 1, et, out + [Meaning(item)])
  {
    hide At, ReadVal, Legal, Encode;
    if item.PutBool? {
      BoolInList(item);
      AtFirst(buf, pos, EncodeElem(item));
    }
  }

  lemma {:induction false} ReadsElem(buf: seq<byte>, pos: nat, item: Item)
    requires Legal(item) && At(buf, pos, EncodeElem(item))
    ensures !item.PutBool? ==> ReadVal(buf, pos, TypeOf(item)) == Ok((Meaning(item), pos + |Encode(item)|))
    decreases item, 2
  {
    if !item.PutBool? {
      ReadsItem(buf, pos, item);
    }
  }

  lemma {:induction false} ReadsItems(buf: seq<byte>, pos: nat, items: seq<Item>, et: nat, out: seq<Value>)
    requires LegalItems(items, et) && At(buf, pos, EncodeItems(items, et))
    ensures ReadElems(buf, pos, |items|, et, out) == Ok((List(out + Meanings(items)), pos + |EncodeItems(items, et)|))
    decreases items, 0
  {
    hide At, ReadVal, Legal, Encode, EncodeElem, Meaning;
    if items == [] {
      assert out + Meanings(items) == out;
    } else {
      var first := EncodeElem(items[0]);
      AtSplit(buf, pos, first, EncodeItems(items[1..], et));
      ReadsElem(buf, pos, items[0]);
      StepsItem(buf, pos, |items|, items[0], et, out);
      var out' := out + [Meaning(items[0])];
      ReadsItems(buf, pos + |first|, items[1..], et, out');
      assert out' + Meanings(items[1..]) == out + Meanings(items);
    }
  }

  lemma {:induction false} ReadsList(buf: seq<byte>, pos: nat, items: seq<Item>, et: nat, long: bool)
    requires et < 16 && (long || |items| < 15) && LegalItems(items, et)
    requires At(buf, pos, ListHeader(|items|, et, long) + EncodeItems(items, et))
    ensures ReadSized(buf, pos)
         == Ok((List(Meanings(items)), pos + |ListHeader(|items|, et, long) + EncodeItems(items, et)|))
    decreases items, 1
  {
    hide At, ReadSize, LegalItems, ListHeader;
    var header := ListHeader(|items|, et, long);
    AtSplit(buf, pos, header, EncodeItems(items, et));
    ReadsHeader(buf, pos, |items|, et, long);
    ReadsItems(buf, pos + |header|, items, et, []);
    assert [] + Meanings(items) == Meanings(items);
  }

  lemma ReadsBinary(buf: seq<byte>, pos: nat, data: seq<byte>)
    requires At(buf, pos, WriteVarint(|data|) + data)
    ensures ReadVal(buf, pos, 8) == Ok((Binary(data), pos + |WriteVarint(|data|) + data|))
  {
    hide At, WriteVarint, ReadVarint;
    AtSplit(buf, pos, WriteVarint(|data|), data);
    VarintRoundTrip(buf, pos, |data|);
    SliceAt(buf, pos + |WriteVarint(|data|)|, data);
  }

  lemma ReadsFieldHeader(buf: seq<byte>, pos: nat, field: Field, last: int)
    requires Legal(field.item) && (field.long || 1 <= field.id - last <= 15)
    requires At(buf, pos, FieldHeader(field, last))
    ensures pos < |buf| && buf[pos] != 0 && buf[pos] % 16 == TypeOf(field.item)
    ensures ReadFieldId(buf, pos, last) == Some((field.id, pos + |FieldHeader(field, last)|))
  {
    hide At, ReadVarint, WriteVarint;
    var t := TypeOf(field.item);
    assert 1 <= t < 16;
    if field.long {
      AtSplit(buf, pos, [t], WriteVarint(ZigZag(field.id)));
      AtFirst(buf, pos, [t]);
      VarintRoundTrip(buf, pos + 1, ZigZag(field.id));
    } else {
      AtFirst(buf, pos, [(field.id - last) * 16 + t]);
    }
  }

  /** One step of the field loop. */
  lemma StepsField(buf: seq<byte>, pos: nat, field: Field, last: int, d: map<int, Value>)
    requires Legal(field.item) && (field.long || 1 <= field.id - last <= 15)
    requires At(buf, pos, FieldHeader(field, last))
    requires var p := pos + |FieldHeader(field, last)|;
             if field.item.PutBool? then Encode(field.item) == []
             else ReadVal(buf, p, TypeOf(field.item)) == Ok((Meaning(field.item), p + |Encode(field.item)|))
    ensures ReadStruct(buf, pos, last, d)
         == ReadStruct(buf, pos + |FieldHeader(field, last)| + |Encode(field.item)|, field.id,
           d[field.id := Meaning(field.item)])
  {
    hide At, ReadVal, ReadFieldId, Encode, FieldHeader;
    ReadsFieldHeader(buf, pos, field, last);
  }

  lemma {:induction false} ReadsFieldValue(buf: seq<byte>, pos: nat, item: Item)
    requires Legal(item) && At(buf, pos, Encode(item))
    ensures if item.PutBool? then Encode(item) == []
            else ReadVal(buf, pos, TypeOf(item)) == Ok((Meaning(item), pos + |Encode(item)|))
    decreases item, 2
  {
    if !item.PutBool? {
      ReadsItem(buf, pos, item);
    }
  }

  lemma {:induction false} ReadsFields(buf: seq<byte>, pos: nat, fields: seq<Field>, last: int, d: map<int, Value>)
    requires LegalFields(fields, last) && At(buf, pos, EncodeFields(fields, last))
    ensures ReadStruct(buf, pos, last, d) == Ok((Struct(FieldMap(fields, d)), pos + |EncodeFields(fields, last)|))
    decreases fields, 0
  {
    hide At, ReadVal, ReadFieldId, Legal, Encode, FieldHeader, Meaning;
    if fields == [] {
      AtFirst(buf, pos, [0]);
    } else {
      var header, body := FieldHeader(fields[0], last), Encode(fields[0].item);
      AtSplit(buf, pos, header + body, EncodeFields(fields[1..], fields[0].id));
      AtSplit(buf, pos, header, body);
      assert (fields decreases to fields[0]);
      ReadsFieldValue(buf, pos + |header|, fields[0].item);
      StepsField(buf, pos, fields[0], last, d);
      ReadsFields(buf, pos + |header| + |body|, fields[1..], fields[0].id, d[fields[0].id := Meaning(fields[0].item)]);
    }
  }

  /** Reading a written value gives its meaning and stops right behind it. */
  lemma {:induction false} ReadsItem(buf: seq<byte>, pos: nat, item: Item)
    requires Legal(item) && !item.PutBool? && At(buf, pos, Encode(item))
    ensures ReadVal(buf, pos, TypeOf(item)) == Ok((Meaning(item), pos + |Encode(item)|))
    decreases item, 1
  {
    hide ReadElems, ReadStruct, ListHeader, ReadVarint, WriteVarint, ReadSize;
    match item
    case PutByte(x) => AtFirst(buf, pos, [x]);
    case PutInt(_, v) => VarintRoundTrip(buf, pos, ZigZag(v));
    case PutDouble(_) =>
    case PutBinary(data) => ReadsBinary(buf, pos, data);
    case PutList(_, et, items, long) => ReadsList(buf, pos, items, et, long);
    case PutStruct(fields) => ReadsFields(buf, pos, fields, 0, map[]);
  }
}
