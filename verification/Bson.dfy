/**
 The lenient BSON reader: an offset loop over untrusted bytes that collects the fields it understands,
 and the document grammar of the BSON specification (version 1.1) it is meant to undo.
 */
module Bson {
  import opened Text

  type Byte = b: int | 0 <= b < 256

  type Bytes = seq<Byte>

  // ---------------------------------------------------------------- little-endian integers

  function Pow256(k: nat): (p: nat)
    ensures p > 0
  {
    if k == 0 then 1 else 256 * Pow256(k - 1)
  }

  function LE(n: nat, k: nat): (s: Bytes)
    ensures |s| == k
  {
    if k == 0 then [] else [n % 256] + LE(n / 256, k - 1)
  }

  function FromLE(s: Bytes): nat {
    if s == [] then 0 else s[0] + 256 * FromLE(s[1..])
  }

  lemma {:induction false} FromLEBound(s: Bytes)
    ensures FromLE(s) < Pow256(|s|)
  {
    if s != [] {
      FromLEBound(s[1..]);
    }
  }

  lemma {:induction false} LERoundTrip(n: nat, k: nat)
    requires n < Pow256(k)
    ensures FromLE(LE(n, k)) == n
  {
    if k > 0 {
      LERoundTrip(n / 256, k - 1);
      assert LE(n, k)[1..] == LE(n / 256, k - 1);
    }
  }

  const TWO32 := 0x1_0000_0000
  const TWO64 := 0x1_0000_0000_0000_0000

  lemma Pow256Widths()
    ensures Pow256(4) == TWO32 && Pow256(8) == TWO64
  {
    assert Pow256(2) == 65536;
    assert Pow256(4) == 256 * (256 * Pow256(2));
    assert Pow256(6) == 256 * (256 * Pow256(4));
    assert Pow256(8) == 256 * (256 * Pow256(6));
  }

  /** The two's complement readings int32(u) and int64(u). */
  function Signed(u: nat, width: nat): int
    requires u < width
  {
    if u < width / 2 then u else u - width
  }

  function Unsigned(n: int, width: nat): nat
    requires 0 <= n + width
  {
    if n < 0 then n + width else n
  }

  // ---------------------------------------------------------------- the reader

  /** What the reader stores for a field. A datetime keeps whole seconds; its text is printed from them. */
  datatype Value =
    | Double(bits: nat)
    | Str(bytes: Bytes)
    | ObjectId(bytes: Bytes)
    | Boolean(value: bool)
    | DateTime(second: int)
    | Int32(int32: int)
    | Int64(int64: int)

  type Document = map<Bytes, Value>

  /** The second of time.Unix(ms/1000, (ms%1000)*1000000): division truncates, and Unix borrows a second back. */
  function UnixSecond(ms: int): (second: int)
    ensures 1000 * second <= ms < 1000 * (second + 1)
  {
    var q := if ms < 0 then -((-ms) / 1000) else ms / 1000;
    if ms - 1000 * q < 0 then q - 1 else q
  }

  function U32At(data: Bytes, off: nat): (u: nat)
    requires off + 4 <= |data|
    ensures u < TWO32
  {
    FromLEBound(data[off..off + 4]);
    Pow256Widths();
    FromLE(data[off..off + 4])
  }

  function U64At(data: Bytes, off: nat): (u: nat)
    requires off + 8 <= |data|
    ensures u < TWO64
  {
    FromLEBound(data[off..off + 8]);
    Pow256Widths();
    FromLE(data[off..off + 8])
  }

  /**
   A field's value, if it is understood and fits, and the offset behind what was consumed: nothing for a
   value that is not read, except for the length of a string.
   */
  function ReadValue(t: Byte, data: Bytes, off: nat): (r: (Option<Value>, nat))
    requires off <= |data|
    ensures off <= r.1 <= |data|
    ensures r.0.Some? ==> off < r.1
    ensures r.0.None? ==> r.1 == if t == 0x02 && off + 4 <= |data| then off + 4 else off
  {
    if t == 0x01 && off + 8 <= |data| then (Some(Double(U64At(data, off))), off + 8)
    else if t == 0x02 && off + 4 <= |data| then
      var n := U32At(data, off);
      if off + 4 + n <= |data| && n > 0 then (Some(Str(data[off + 4..off + 4 + n - 1])), off + 4 + n)
      else (None, off + 4)
    else if t == 0x07 && off + 12 <= |data| then (Some(ObjectId(data[off..off + 12])), off + 12)
    else if t == 0x08 && off + 1 <= |data| then (Some(Boolean(data[off] != 0)), off + 1)
    else if t == 0x09 && off + 8 <= |data| then (Some(DateTime(UnixSecond(Signed(U64At(data, off), TWO64)))), off + 8)
    else if t == 0x10 && off + 4 <= |data| then (Some(Int32(Signed(U32At(data, off), TWO32))), off + 4)
    else if t == 0x12 && off + 8 <= |data| then (Some(Int64(Signed(U64At(data, off), TWO64))), off + 8)
    else (None, off)
  }

  /** The offset of the first zero byte from `off` on, or the end. */
  function ZeroFrom(data: Bytes, off: nat): (z: nat)
    requires off <= |data|
    ensures off <= z <= |data|
    ensures forall i :: off <= i < z ==> data[i] != 0
    ensures z < |data| ==> data[z] == 0
    decreases |data| - off
  {
    if off < |data| && data[off] != 0 then ZeroFrom(data, off + 1) else off
  }

  function With(doc: Document, name: Bytes, value: Option<Value>): Document {
    match value
    case None => doc
    case Some(v) => doc[name := v]
  }

  /** The fields read from `off` on, on top of those in `doc`. */
  function ParseFrom(data: Bytes, off: nat, doc: Document): Document
    requires off <= |data|
    decreases |data| - off
  {
    if off + 1 >= |data| || data[off] == 0 then doc
    else
      var z := ZeroFrom(data, off + 1);
      if z == |data| then doc
      else
        var (value, next) := ReadValue(data[off], data, z + 1);
        ParseFrom(data, next, With(doc, data[off + 1..z], value))
  }

  function Parse(data: Bytes): Option<Document> {
    if |data| < 5 then None else Some(ParseFrom(data, 4, map[]))
  }

  /** Only what is too short for a document is an error. */
  lemma ParseFailsExactly(data: Bytes)
    ensures Parse(data).None? <==> |data| < 5
  {
  }

  /** Any byte but zero is true. */
  lemma AnyOtherByteIsTrue(data: Bytes, off: nat)
    requires off < |data|
    ensures ReadValue(0x08, data, off) == (Some(Boolean(data[off] != 0)), off + 1)
  {
  }

  /** parseBSONDocument. Every index and slice is in bounds, whatever the bytes. */
  method ParseBSONDocument(data: Bytes) returns (r: Option<Document>)
    ensures r == Parse(data)
  {
    if |data| < 5 {
      return None;
    }
    var doc: Document := map[];
    var offset := 4;
    while offset < |data| - 1
      invariant 4 <= offset <= |data|
      invariant ParseFrom(data, offset, doc) == ParseFrom(data, 4, map[])
    {
      hide Signed, FromLE, TWO32, TWO64, UnixSecond;
      var bsonType := data[offset];
      ghost var start := offset;
      offset := offset + 1;
      if bsonType == 0 {
        break;
      }
      var nameEnd := offset;
      while nameEnd < |data| && data[nameEnd] != 0
        invariant offset <= nameEnd <= |data|
        invariant ZeroFrom(data, nameEnd) == ZeroFrom(data, offset)
      {
        nameEnd := nameEnd + 1;
      }
      if nameEnd >= |data| {
        break;
      }
      var fieldName := data[offset..nameEnd];
      offset := nameEnd + 1;
      var value := None;
      value, offset := ReadFieldValue(bsonType, data, offset);
      if value.Some? {
        doc := doc[fieldName := value.value];
      }
    }
    return Some(doc);
  }

  /** The switch over the field's type: a value that does not fit is left out and its bytes are not skipped. */
  method ReadFieldValue(bsonType: Byte, data: Bytes, start: nat) returns (value: Option<Value>, offset: nat)
    requires start <= |data|
    ensures (value, offset) == ReadValue(bsonType, data, start)
  {
    offset := start;
    value := None;
    match bsonType {
      case 0x01 =>
        if offset + 8 <= |data| {
          value := Some(Double(U64At(data, offset)));
          offset := offset + 8;
        }
      case 0x02 =>
        if offset + 4 <= |data| {
          var strLen := U32At(data, offset);
          offset := offset + 4;
          if offset + strLen <= |data| && strLen > 0 {
            value := Some(Str(data[offset..offset + strLen - 1]));
            offset := offset + strLen;
          }
        }
      case 0x07 =>
        if offset + 12 <= |data| {
          value := Some(ObjectId(data[offset..offset + 12]));
          offset := offset + 12;
        }
      case 0x08 =>
        if offset + 1 <= |data| {
          value := Some(Boolean(data[offset] != 0));
          offset := offset + 1;
        }
      case 0x09 =>
        if offset + 8 <= |data| {
          value := Some(DateTime(UnixSecond(Signed(U64At(data, offset), TWO64))));
          offset := offset + 8;
        }
      case 0x10 =>
        if offset + 4 <= |data| {
          value := Some(Int32(Signed(U32At(data, offset), TWO32)));
          offset := offset + 4;
        }
      case 0x12 =>
        if offset + 8 <= |data| {
          value := Some(Int64(Signed(U64At(data, offset), TWO64)));
          offset := offset + 8;
        }
      case _ =>
    }
  }

  // ---------------------------------------------------------------- the document grammar

  /** An element value of BSON 1.1, of the types the reader handles, and null. */
  datatype Element =
    | DoubleE(bits: nat)
    | StringE(bytes: Bytes)
    | ObjectIdE(id: Bytes)
    | BooleanE(value: bool)
    | DateTimeE(ms: int)
    | NullE
    | Int32E(int32: int)
    | Int64E(int64: int)

  datatype Field = Field(name: Bytes, element: Element)

  predicate ValidElement(e: Element) {
    match e
    case DoubleE(bits) => bits < TWO64
    case StringE(s) => |s| + 1 < TWO32 / 2
    case ObjectIdE(id) => |id| == 12
    case DateTimeE(ms) => -(TWO64 / 2) <= ms < TWO64 / 2
    case Int32E(n) => -(TWO32 / 2) <= n < TWO32 / 2
    case Int64E(n) => -(TWO64 / 2) <= n < TWO64 / 2
    case _ => true
  }

  /** Names are zero-terminated on the wire. */
  predicate ValidField(f: Field) {
    0 !in f.name && ValidElement(f.element)
  }

  predicate ValidFields(fields: seq<Field>) {
    forall f :: f in fields ==> ValidField(f)
  }

  function TypeByte(e: Element): (t: Byte)
    ensures t != 0
  {
    match e
    case DoubleE(_) => 0x01
    case StringE(_) => 0x02
    case ObjectIdE(_) => 0x07
    case BooleanE(_) => 0x08
    case DateTimeE(_) => 0x09
    case NullE => 0x0A
    case Int32E(_) => 0x10
    case Int64E(_) => 0x12
  }

  function Payload(e: Element): Bytes
    requires ValidElement(e)
  {
    match e
    case DoubleE(bits) => LE(bits, 8)
    case StringE(s) => LE(|s| + 1, 4) + s + [0]
    case ObjectIdE(id) => id
    case BooleanE(b) => [if b then 1 else 0]
    case DateTimeE(ms) => LE(Unsigned(ms, TWO64), 8)
    case NullE => []
    case Int32E(n) => LE(Unsigned(n, TWO32), 4)
    case Int64E(n) => LE(Unsigned(n, TWO64), 8)
  }

  function EncodeField(f: Field): (s: Bytes)
    requires ValidField(f)
    ensures |s| >= 2
  {
    [TypeByte(f.element)] + f.name + [0] + Payload(f.element)
  }

  function EncodeFields(fields: seq<Field>): Bytes
    requires ValidFields(fields)
  {
    if fields == [] then [] else EncodeField(fields[0]) + EncodeFields(fields[1..])
  }

  /** document ::= int32 e_list "\x00", the length counting the whole document. */
  function Encode(fields: seq<Field>): (s: Bytes)
    requires ValidFields(fields)
    ensures |s| >= 5
  {
    LE(|EncodeFields(fields)| + 5, 4) + EncodeFields(fields) + [0]
  }

  // ---------------------------------------------------------------- round trip

  /** What the reader should make of an element: nothing of a null, whole seconds of a datetime. */
  function ValueOf(e: Element): Option<Value> {
    match e
    case DoubleE(bits) => Some(Double(bits))
    case StringE(s) => Some(Str(s))
    case ObjectIdE(id) => Some(ObjectId(id))
    case BooleanE(b) => Some(Boolean(b))
    case DateTimeE(ms) => Some(DateTime(UnixSecond(ms)))
    case NullE => None
    case Int32E(n) => Some(Int32(n))
    case Int64E(n) => Some(Int64(n))
  }

  /** Later fields win over earlier ones of the same name. */
  function DocumentOf(fields: seq<Field>, doc: Document): Document {
    if fields == [] then doc
    else DocumentOf(fields[1..], With(doc, fields[0].name, ValueOf(fields[0].element)))
  }

  lemma LEInside(pre: Bytes, n: nat, k: nat, rest: Bytes)
    requires n < Pow256(k)
    ensures FromLE((pre + LE(n, k) + rest)[|pre|..|pre| + k]) == n
  {
    LERoundTrip(n, k);
    assert (pre + LE(n, k) + rest)[|pre|..|pre| + k] == LE(n, k);
  }

  lemma U32Inside(pre: Bytes, n: nat, rest: Bytes)
    requires n < TWO32
    ensures U32At(pre + LE(n, 4) + rest, |pre|) == n
  {
    hide Pow256, LE, FromLE;
    Pow256Widths();
    LEInside(pre, n, 4, rest);
  }

  lemma U64Inside(pre: Bytes, n: nat, rest: Bytes)
    requires n < TWO64
    ensures U64At(pre + LE(n, 8) + rest, |pre|) == n
  {
    hide Pow256, LE, FromLE;
    Pow256Widths();
    LEInside(pre, n, 8, rest);
  }

  lemma SignedUnsigned(n: int, width: nat)
    requires -(width / 2) <= n < width / 2 && width % 2 == 0
    ensures Unsigned(n, width) < width && Signed(Unsigned(n, width), width) == n
  {
  }

  lemma Regroup(pre: Bytes, l: Bytes, s: Bytes, rest: Bytes)
    ensures pre + (l + s + [0]) + rest == pre + l + (s + [0] + rest)
    ensures (pre + l + (s + [0] + rest))[|pre| + |l|..|pre| + |l| + |s|] == s
  {
  }

  lemma ReadString(data: Bytes, off: nat, s: Bytes)
    requires off + 4 + |s| + 1 <= |data| && U32At(data, off) == |s| + 1 && data[off + 4..off + 4 + |s|] == s
    ensures ReadValue(0x02, data, off) == (Some(Str(s)), off + 4 + |s| + 1)
  {
  }

  lemma StringBehindLength(pre: Bytes, l: Bytes, s: Bytes, rest: Bytes)
    requires |l| == 4 && U32At(pre + l + (s + [0] + rest), |pre|) == |s| + 1
    ensures ReadValue(0x02, pre + (l + s + [0]) + rest, |pre|) == (Some(Str(s)), |pre| + 4 + |s| + 1)
  {
    hide U32At, ReadValue;
    Regroup(pre, l, s, rest);
    var data := pre + l + (s + [0] + rest);
    assert pre + (l + s + [0]) + rest == data;
    ReadString(data, |pre|, s);
  }

  lemma StringInside(pre: Bytes, s: Bytes, rest: Bytes)
    requires |s| + 1 < TWO32 / 2
    ensures ReadValue(0x02, pre + (LE(|s| + 1, 4) + s + [0]) + rest, |pre|) == (Some(Str(s)), |pre| + 4 + |s| + 1)
  {
    hide LE, U32At, ReadValue;
    U32Inside(pre, |s| + 1, s + [0] + rest);
    StringBehindLength(pre, LE(|s| + 1, 4), s, rest);
  }

  /** A payload read where it was written gives its element's value back and ends where it ends. */
  lemma PayloadInside(pre: Bytes, e: Element, rest: Bytes)
    requires ValidElement(e)
    ensures ReadValue(TypeByte(e), pre + Payload(e) + rest, |pre|) == (ValueOf(e), |pre| + |Payload(e)|)
  {
    hide LE, U32At, U64At, Signed, Unsigned;
    match e
    case DoubleE(bits) => U64Inside(pre, bits, rest);
    case StringE(s) => StringInside(pre, s, rest);
    case ObjectIdE(id) => assert (pre + id + rest)[|pre|..|pre| + 12] == id;
    case BooleanE(_) =>
    case DateTimeE(ms) =>
      SignedUnsigned(ms, TWO64);
      U64Inside(pre, Unsigned(ms, TWO64), rest);
    case NullE =>
    case Int32E(n) =>
      SignedUnsigned(n, TWO32);
      U32Inside(pre, Unsigned(n, TWO32), rest);
    case Int64E(n) =>
      SignedUnsigned(n, TWO64);
      U64Inside(pre, Unsigned(n, TWO64), rest);
  }

  lemma ZeroFound(data: Bytes, off: nat, z: nat)
    requires off <= z < |data| && data[z] == 0 && forall i :: off <= i < z ==> data[i] != 0
    ensures ZeroFrom(data, off) == z
  {
  }

  /** One encoded field, followed by anything, is read as itself. */
  lemma FieldInside(pre: Bytes, f: Field, rest: Bytes, doc: Document)
    requires ValidField(f) && rest != []
    ensures ParseFrom(pre + EncodeField(f) + rest, |pre|, doc)
         == ParseFrom(pre + EncodeField(f) + rest, |pre + EncodeField(f)|, With(doc, f.name, ValueOf(f.element)))
  {
    hide ReadValue, Payload, With, ValueOf;
    var data := pre + EncodeField(f) + rest;
    var head := pre + [TypeByte(f.element)] + f.name + [0];
    assert data == head + Payload(f.element) + rest;
    var z := |head| - 1;
    forall i | |pre| + 1 <= i < z
      ensures data[i] != 0
    {
      assert data[i] == f.name[i - |pre| - 1];
    }
    ZeroFound(data, |pre| + 1, z);
    assert data[|pre| + 1..z] == f.name;
    PayloadInside(head, f.element, rest);
  }

  /** Encoded fields, followed by anything, are read one after another. */
  lemma {:induction false} FieldsInside(pre: Bytes, fields: seq<Field>, rest: Bytes, doc: Document)
    requires ValidFields(fields) && rest != []
    ensures ParseFrom(pre + EncodeFields(fields) + rest, |pre|, doc)
         == ParseFrom(pre + EncodeFields(fields) + rest, |pre + EncodeFields(fields)|, DocumentOf(fields, doc))
    decreases |fields|
  {
    hide EncodeField, With, ValueOf, ParseFrom;
    if fields != [] {
      var f, tail := fields[0], EncodeFields(fields[1..]);
      assert pre + EncodeFields(fields) + rest == pre + EncodeField(f) + (tail + rest) == (pre + EncodeField(f)) + tail + rest;
      FieldInside(pre, f, tail + rest, doc);
      FieldsInside(pre + EncodeField(f), fields[1..], rest, With(doc, f.name, ValueOf(f.element)));
    }
  }

  /** The reader undoes the encoder on every field list, nulls left out and datetimes cut to the second. */
  lemma ParseEncode(fields: seq<Field>)
    requires ValidFields(fields)
    ensures Parse(Encode(fields)) == Some(DocumentOf(fields, map[]))
  {
    hide LE;
    FieldsInside(LE(|EncodeFields(fields)| + 5, 4), fields, [0], map[]);
  }

  const HANDLED: set<Byte> := {0x01, 0x02, 0x07, 0x08, 0x09, 0x10, 0x12}

  /** A type the reader does not know: of an embedded document (0x03), an array (0x04) and others. */
  predicate Unhandled(t: Byte) {
    t != 0 && t !in HANDLED
  }

  lemma SkippedField(data: Bytes, off: nat, z: nat, doc: Document)
    requires off < z < |data| && Unhandled(data[off])
    requires data[z] == 0 && forall i :: off < i < z ==> data[i] != 0
    ensures ParseFrom(data, off, doc) == ParseFrom(data, z + 1, doc)
  {
    ZeroFound(data, off + 1, z);
  }

  /** A value of such a type behind a name of `k` bytes at `off`, beginning with its length: that has two bytes, the low one no handled type. */
  predicate DocumentAt(data: Bytes, off: nat, k: nat) {
    && off + k + 6 <= |data| && Unhandled(data[off])
    && (forall i :: off < i < off + 1 + k ==> data[i] != 0) && data[off + 1 + k] == 0
    && data[off + k + 2] !in HANDLED && data[off + k + 4] == data[off + k + 5] == 0
  }

  /** Its low length byte is read as a type, the high one as a name, and the zeros behind end the outer document. */
  lemma DocumentStops(data: Bytes, off: nat, k: nat, doc: Document)
    requires DocumentAt(data, off, k)
    ensures ParseFrom(data, off, doc) == doc
  {
    hide ParseFrom;
    var q := off + k + 2;
    SkippedField(data, off, q - 1, doc);
    if data[q] == 0 {
      ParseStops(data, q, doc);
    } else if data[q + 1] == 0 {
      SkippedField(data, q, q + 1, doc);
      ParseStops(data, q + 2, doc);
    } else {
      SkippedField(data, q, q + 2, doc);
      ParseStops(data, q + 3, doc);
    }
  }

  lemma DocumentEncoded(t: Byte, name: Bytes, inner: Bytes, rest: Bytes)
    requires Unhandled(t) && 0 !in name && 5 <= |inner| < 65536 && inner[..4] == LE(|inner|, 4) && |inner| % 256 !in HANDLED
    ensures DocumentAt([t] + name + [0] + inner + rest, 0, |name|)
  {
    hide LE;
    TwoByteLength(inner);
    var tail := [t] + name + [0] + inner + rest;
    assert forall i :: 0 < i < 1 + |name| ==> tail[i] == name[i - 1];
    assert tail[|name| + 2] == inner[0] && tail[|name| + 4] == inner[2] && tail[|name| + 5] == inner[3];
  }

  lemma DocumentShifted(start: Bytes, tail: Bytes, k: nat)
    requires DocumentAt(tail, 0, k)
    ensures DocumentAt(start + tail, |start|, k)
  {
    assert forall i :: 0 <= i < |tail| ==> (start + tail)[|start| + i] == tail[i];
    forall i | |start| < i < |start| + 1 + k
      ensures (start + tail)[i] != 0
    {
      assert (start + tail)[i] == tail[i - |start|];
    }
  }

  /** Fields, an embedded document or array under a name, and whatever is behind it. */
  function WithEmbedded(header: Bytes, fields: seq<Field>, t: Byte, name: Bytes, inner: Bytes, rest: Bytes): Bytes
    requires ValidFields(fields)
  {
    header + EncodeFields(fields) + ([t] + name + [0] + inner + rest)
  }

  /**
   Outside the handled types the reader does not skip the value it cannot read: an embedded document or array of
   less than 64 KiB is taken for further fields, the zero bytes of its length for the end of the document, and
   every field behind it is lost. This holds unless the low byte of its length is a handled type.
   */
  lemma EmbeddedDocumentEndsParse(header: Bytes, fields: seq<Field>, t: Byte, name: Bytes, inner: Bytes, rest: Bytes)
    requires |header| == 4 && Unhandled(t) && ValidFields(fields) && 0 !in name
    requires 5 <= |inner| < 65536 && inner[..4] == LE(|inner|, 4) && |inner| % 256 !in HANDLED
    ensures Parse(WithEmbedded(header, fields, t, name, inner, rest)) == Some(DocumentOf(fields, map[]))
  {
    hide EncodeFields, DocumentOf, ParseFrom, LE, DocumentAt;
    var tail := [t] + name + [0] + inner + rest;
    FieldsInside(header, fields, tail, map[]);
    DocumentEncoded(t, name, inner, rest);
    DocumentShifted(header + EncodeFields(fields), tail, |name|);
    DocumentStops(header + EncodeFields(fields) + tail, |header + EncodeFields(fields)|, |name|, DocumentOf(fields, map[]));
  }

  lemma {:induction false} NullsChangeNothing(fields: seq<Field>, doc: Document)
    requires forall f :: f in fields ==> f.element.NullE?
    ensures DocumentOf(fields, doc) == doc
    decreases |fields|
  {
    if fields != [] {
      assert fields[0] in fields;
      NullsChangeNothing(fields[1..], doc);
    }
  }

  lemma {:induction false} DocumentOfConcat(fields: seq<Field>, more: seq<Field>, doc: Document)
    ensures DocumentOf(fields + more, doc) == DocumentOf(more, DocumentOf(fields, doc))
    decreases |fields|
  {
    hide With, ValueOf;
    if fields == [] {
      assert fields + more == more;
    } else {
      assert (fields + more)[1..] == fields[1..] + more;
      DocumentOfConcat(fields[1..], more, With(doc, fields[0].name, ValueOf(fields[0].element)));
    }
  }

  /** Such a document is still read right exactly if every field behind the embedded one is null. */
  lemma EmbeddedDocumentIsReadRightExactly(header: Bytes, fields: seq<Field>, t: Byte, name: Bytes, inner: Bytes, more: seq<Field>)
    requires |header| == 4 && Unhandled(t) && ValidFields(fields) && ValidFields(more) && DistinctNames(fields + more) && 0 !in name
    requires 5 <= |inner| < 65536 && inner[..4] == LE(|inner|, 4) && |inner| % 256 !in HANDLED
    ensures Parse(WithEmbedded(header, fields, t, name, inner, EncodeFields(more) + [0])) == Some(DocumentOf(fields + more, map[]))
       <==> (forall f :: f in more ==> f.element.NullE?)
  {
    hide Parse, WithEmbedded, DocumentOf, EncodeFields, ValueOf, LE;
    EmbeddedDocumentEndsParse(header, fields, t, name, inner, EncodeFields(more) + [0]);
    DocumentOfConcat(fields, more, map[]);
    if forall f :: f in more ==> f.element.NullE? {
      NullsChangeNothing(more, DocumentOf(fields, map[]));
    } else {
      var i :| 0 <= i < |more| && !more[i].element.NullE?;
      LaterFieldIsNew(fields, more, i);
    }
  }

  lemma LaterFieldIsNew(fields: seq<Field>, more: seq<Field>, i: nat)
    requires DistinctNames(fields + more) && i < |more| && !more[i].element.NullE?
    ensures more[i].name in DocumentOf(fields + more, map[]) && more[i].name !in DocumentOf(fields, map[])
  {
    hide DocumentOf;
    var k := |fields| + i;
    assert (fields + more)[k] == more[i];
    assert forall j :: 0 <= j < |fields| ==> (fields + more)[j] == fields[j];
    FieldOfDocument(fields + more, map[], k);
    OtherNames(fields, map[], more[i].name);
  }

  /** Without distinct names: the fields behind must amount to nothing. */
  lemma EmbeddedDocumentLosesExactly(header: Bytes, fields: seq<Field>, t: Byte, name: Bytes, inner: Bytes, more: seq<Field>)
    requires |header| == 4 && Unhandled(t) && ValidFields(fields) && ValidFields(more) && 0 !in name
    requires 5 <= |inner| < 65536 && inner[..4] == LE(|inner|, 4) && |inner| % 256 !in HANDLED
    ensures Parse(WithEmbedded(header, fields, t, name, inner, EncodeFields(more) + [0])) == Some(DocumentOf(fields + more, map[]))
       <==> DocumentOf(fields + more, map[]) == DocumentOf(fields, map[])
  {
    hide Parse, WithEmbedded, DocumentOf, EncodeFields, LE;
    EmbeddedDocumentEndsParse(header, fields, t, name, inner, EncodeFields(more) + [0]);
  }

  /**
   With a handled low byte reading goes on inside: of a 7-byte document or array the length is taken for an object ID
   of no name, which swallows the rest of the document and the 7 bytes behind it, and the fields from there
   on are read.
   */
  lemma SevenByteDocumentIsAnObjectId(header: Bytes, fields: seq<Field>, t: Byte, name: Bytes, inner: Bytes, behind: Bytes, more: seq<Field>)
    requires |header| == 4 && Unhandled(t) && ValidFields(fields) && ValidFields(more) && 0 !in name
    requires |inner| == 7 && inner[..4] == LE(7, 4) && |behind| == 7
    ensures var id := Field([], ObjectIdE(inner[2..] + behind));
            Parse(WithEmbedded(header, fields, t, name, inner, behind + EncodeFields(more) + [0])) == Some(DocumentOf(fields + [id] + more, map[]))
  {
    hide EncodeField, DocumentOf, ParseFrom, LE, ReadValue;
    var id := Field([], ObjectIdE(inner[2..] + behind));
    SevenEncoded(inner, behind);
    var pre := header + EncodeFields(fields);
    var skipped := [t] + name + [0];
    var rest := EncodeFields([id] + more) + [0];
    assert ([id] + more)[0] == id && ([id] + more)[1..] == more;
    assert EncodeFields([id] + more) == EncodeField(id) + EncodeFields(more);
    assert skipped + inner + (behind + EncodeFields(more) + [0]) == skipped + rest;
    var data := pre + (skipped + rest);
    FieldsInside(header, fields, skipped + rest, map[]);
    assert forall i :: |pre| < i < |pre| + 1 + |name| ==> data[i] == name[i - |pre| - 1];
    SkippedField(data, |pre|, |pre| + 1 + |name|, DocumentOf(fields, map[]));
    assert data == (pre + skipped) + EncodeFields([id] + more) + [0];
    FieldsInside(pre + skipped, [id] + more, [0], DocumentOf(fields, map[]));
    ParseEnds(data, DocumentOf([id] + more, DocumentOf(fields, map[])));
    DocumentOfConcat(fields, [id] + more, map[]);
    assert fields + ([id] + more) == fields + [id] + more;
  }

  lemma ParseEnds(data: Bytes, doc: Document)
    requires data != []
    ensures ParseFrom(data, |data| - 1, doc) == doc
  {
  }

  lemma SevenEncoded(inner: Bytes, behind: Bytes)
    requires |inner| == 7 && inner[..4] == LE(7, 4) && |behind| == 7
    ensures ValidField(Field([], ObjectIdE(inner[2..] + behind)))
    ensures EncodeField(Field([], ObjectIdE(inner[2..] + behind))) == inner + behind
  {
    hide LE;
    TwoByteLength(inner);
    assert inner == [inner[0], inner[1]] + inner[2..];
  }

  lemma TwoByteLength(inner: Bytes)
    requires 5 <= |inner| < 65536 && inner[..4] == LE(|inner|, 4)
    ensures inner[0] == |inner| % 256 && inner[1] == |inner| / 256 && inner[2] == inner[3] == 0
  {
    var n := |inner|;
    var h := n / 256;
    assert LE(n, 4) == [n % 256] + LE(h, 3) && LE(h, 3) == [h % 256] + LE(h / 256, 2) && h / 256 == 0;
    assert LE(0, 2) == [0] + LE(0, 1) && LE(0, 1) == [0] + LE(0, 0);
    assert inner[0] == inner[..4][0] && inner[1] == inner[..4][1] && inner[2] == inner[..4][2] && inner[3] == inner[..4][3];
  }

  lemma ParseStops(data: Bytes, off: nat, doc: Document)
    requires off < |data| && data[off] == 0
    ensures ParseFrom(data, off, doc) == doc
  {
  }

  predicate DistinctNames(fields: seq<Field>) {
    forall i, j :: 0 <= i < j < |fields| ==> fields[i].name != fields[j].name
  }

  /** A name no field carries is left as it was. */
  lemma {:induction false} OtherNames(fields: seq<Field>, doc: Document, n: Bytes)
    requires forall f :: f in fields ==> f.name != n
    ensures n in DocumentOf(fields, doc) <==> n in doc
    ensures n in doc ==> DocumentOf(fields, doc)[n] == doc[n]
    decreases |fields|
  {
    hide ValueOf;
    if fields != [] {
      assert fields[0] in fields;
      OtherNames(fields[1..], With(doc, fields[0].name, ValueOf(fields[0].element)), n);
    }
  }

  lemma {:induction false} FieldOfDocument(fields: seq<Field>, doc: Document, i: nat)
    requires DistinctNames(fields) && i < |fields| && fields[i].name !in doc
    ensures var d := DocumentOf(fields, doc);
            match ValueOf(fields[i].element)
            case None => fields[i].name !in d
            case Some(v) => fields[i].name in d && d[fields[i].name] == v
    decreases |fields|
  {
    hide ValueOf;
    var next := With(doc, fields[0].name, ValueOf(fields[0].element));
    if i == 0 {
      OtherNames(fields[1..], next, fields[0].name);
    } else {
      FieldOfDocument(fields[1..], next, i - 1);
    }
  }

  /** With distinct names the document holds exactly the fields that are not null, each with its own value. */
  lemma RoundTrip(fields: seq<Field>)
    requires ValidFields(fields) && DistinctNames(fields)
    ensures Parse(Encode(fields)).Some?
    ensures var doc := Parse(Encode(fields)).value;
            && (forall n :: n in doc <==> exists f :: f in fields && f.name == n && !f.element.NullE?)
            && (forall f :: f in fields && !f.element.NullE? ==> Some(doc[f.name]) == ValueOf(f.element))
  {
    hide Encode, Parse, DocumentOf;
    ParseEncode(fields);
    var doc := DocumentOf(fields, map[]);
    forall f | f in fields
      ensures !f.element.NullE? ==> f.name in doc && Some(doc[f.name]) == ValueOf(f.element)
      ensures f.element.NullE? ==> f.name !in doc
    {
      var i :| 0 <= i < |fields| && fields[i] == f;
      FieldOfDocument(fields, map[], i);
    }
    forall n | n in doc
      ensures exists f :: f in fields && f.name == n && !f.element.NullE?
    {
      if forall f :: f in fields ==> f.name != n {
        OtherNames(fields, map[], n);
        assert false;
      }
    }
  }
}
