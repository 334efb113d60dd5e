/** The protocol under the record reader and writer, as a stream of tokens: one token per protocol call. */
module ThriftProtocol {
  import opened Wrappers
  import opened Integers

  datatype TType =
    T_STOP | T_BOOL | T_BYTE | T_I16 | T_I32 | T_I64 | T_DOUBLE | T_STRING | T_STRUCT | T_MAP | T_SET | T_LIST

  datatype Token =
    | StructBegin(name: string) | StructEnd
    | FieldBegin(name: string, ftype: TType, fid: int16) | FieldEnd | FieldStop
    | Bool(b: bool) | Byte(n8: int8) | I16(n16: int16) | I32(n32: int32) | I64(n64: int) | Double(d: real)
    | Str(s: string)
    | ListBegin(etype: TType, size: uint32) | ListEnd
    | SetBegin(etype: TType, size: uint32) | SetEnd
    | MapBegin(ktype: TType, vtype: TType, size: uint32) | MapEnd

  /** The token is not what the call expected, or the input is over. */
  datatype ProtocolError = MALFORMED | INVALID_DATA

  type Stream = seq<Token>

  /** Consumes one token that satisfies `pred`. */
  function Expect(toks: Stream, pred: Token -> bool): (r: Result<Stream, ProtocolError>)
    ensures r.Success? <==> toks != [] && pred(toks[0])
    ensures r.Success? ==> r.value == toks[1..]
    ensures r.Failure? ==> r.error == MALFORMED
  {
    if toks != [] && pred(toks[0]) then Success(toks[1..]) else Failure(MALFORMED)
  }

  /** The token that carries a value of a scalar type. */
  predicate IsScalar(t: TType, tok: Token) {
    match t
    case T_BOOL => tok.Bool?
    case T_BYTE => tok.Byte?
    case T_I16 => tok.I16?
    case T_I32 => tok.I32?
    case T_I64 => tok.I64?
    case T_DOUBLE => tok.Double?
    case T_STRING => tok.Str?
    case _ => false
  }

  // ---- Skipping a value nobody wants ----

  /** Reads and drops one value of the given type, to any depth. */
  function Skip(t: TType, toks: Stream): (r: Result<Stream, ProtocolError>)
    ensures r.Success? ==> |r.value| <= |toks|
    decreases |toks|, 0
  {
    match t
    case T_STOP => Success(toks)
    case T_STRUCT =>
      if toks == [] || !toks[0].StructBegin? then Failure(MALFORMED)
      else
        var rest :- SkipFields(toks[1..]);
        Expect(rest, (k: Token) => k.StructEnd?)
    case T_LIST =>
      if toks == [] || !toks[0].ListBegin? then Failure(MALFORMED)
      else
        var rest :- SkipMany(toks[0].etype, toks[0].size, toks[1..]);
        Expect(rest, (k: Token) => k.ListEnd?)
    case T_SET =>
      if toks == [] || !toks[0].SetBegin? then Failure(MALFORMED)
      else
        var rest :- SkipMany(toks[0].etype, toks[0].size, toks[1..]);
        Expect(rest, (k: Token) => k.SetEnd?)
    case T_MAP =>
      if toks == [] || !toks[0].MapBegin? then Failure(MALFORMED)
      else
        var rest :- SkipPairs(toks[0].ktype, toks[0].vtype, toks[0].size, toks[1..]);
        Expect(rest, (k: Token) => k.MapEnd?)
    case _ => Expect(toks, (k: Token) => IsScalar(t, k))
  }

  function SkipFields(toks: Stream): (r: Result<Stream, ProtocolError>)
    ensures r.Success? ==> |r.value| <= |toks|
    decreases |toks|, 0
  {
    if toks == [] then Failure(MALFORMED)
    else if toks[0].FieldStop? || (toks[0].FieldBegin? && toks[0].ftype == T_STOP) then Success(toks[1..])
    else if !toks[0].FieldBegin? then Failure(MALFORMED)
    else
      var rest :- Skip(toks[0].ftype, toks[1..]);
      var next :- Expect(rest, (k: Token) => k.FieldEnd?);
      SkipFields(next)
  }

  function SkipMany(t: TType, n: nat, toks: Stream): (r: Result<Stream, ProtocolError>)
    ensures r.Success? ==> |r.value| <= |toks|
    decreases |toks|, n + 1
  {
    if n == 0 then Success(toks)
    else
      var rest :- Skip(t, toks);
      SkipMany(t, n - 1, rest)
  }

  function SkipPairs(kt: TType, vt: TType, n: nat, toks: Stream): (r: Result<Stream, ProtocolError>)
    ensures r.Success? ==> |r.value| <= |toks|
    decreases |toks|, n + 1
  {
    if n == 0 then Success(toks)
    else
      var rest :- Skip(kt, toks);
      var next :- Skip(vt, rest);
      SkipPairs(kt, vt, n - 1, next)
  }

  // ---- Well-formed values ----

  datatype Value =
    | VBool(b: bool) | VByte(n8: int8) | VI16(n16: int16) | VI32(n32: int32) | VI64(n64: int) | VDouble(d: real)
    | VStr(s: string)
    | VStruct(name: string, fields: seq<Field>)
    | VList(etype: TType, elems: seq<Value>)
    | VSet(etype: TType, elems: seq<Value>)
    | VMap(ktype: TType, vtype: TType, entries: seq<Entry>)

  datatype Field = Field(name: string, fid: int16, value: Value)
  datatype Entry = Entry(key: Value, val: Value)

  function TypeOf(v: Value): TType {
    match v
    case VBool(_) => T_BOOL
    case VByte(_) => T_BYTE
    case VI16(_) => T_I16
    case VI32(_) => T_I32
    case VI64(_) => T_I64
    case VDouble(_) => T_DOUBLE
    case VStr(_) => T_STRING
    case VStruct(_, _) => T_STRUCT
    case VList(_, _) => T_LIST
    case VSet(_, _) => T_SET
    case VMap(_, _, _) => T_MAP
  }

  /** A container is announced with its size cast to 32 bits. */
  function Size32(n: nat): uint32 {
    n % TWO32
  }

  /** The tokens a writer emits for a value. */
  function Encode(v: Value): Stream
    decreases v, 0
  {
    match v
    case VBool(b) => [Bool(b)]
    case VByte(n) => [Byte(n)]
    case VI16(n) => [I16(n)]
    case VI32(n) => [I32(n)]
    case VI64(n) => [I64(n)]
    case VDouble(d) => [Double(d)]
    case VStr(s) => [Str(s)]
    case VStruct(name, fields) => [StructBegin(name)] + EncodeFields(fields) + [FieldStop, StructEnd]
    case VList(et, elems) => [ListBegin(et, Size32(|elems|))] + EncodeMany(elems) + [ListEnd]
    case VSet(et, elems) => [SetBegin(et, Size32(|elems|))] + EncodeMany(elems) + [SetEnd]
    case VMap(kt, vt, entries) => [MapBegin(kt, vt, Size32(|entries|))] + EncodePairs(entries) + [MapEnd]
  }

  function EncodeField(f: Field): Stream
    decreases f, 1
  {
    [FieldBegin(f.name, TypeOf(f.value), f.fid)] + Encode(f.value) + [FieldEnd]
  }

  function EncodeFields(fields: seq<Field>): Stream
    decreases fields, 0
  {
    if fields == [] then [] else EncodeField(fields[0]) + EncodeFields(fields[1..])
  }

  function EncodeMany(elems: seq<Value>): Stream
    decreases elems, 0
  {
    if elems == [] then [] else Encode(elems[0]) + EncodeMany(elems[1..])
  }

  function EncodePairs(entries: seq<Entry>): Stream
    decreases entries, 0
  {
    if entries == [] then [] else EncodeEntry(entries[0]) + EncodePairs(entries[1..])
  }

  function EncodeEntry(e: Entry): Stream
    decreases e, 1
  {
    Encode(e.key) + Encode(e.val)
  }

  /** Elements have their container's element type, and sizes fit the 32 bits they are announced in. */
  predicate WellFormed(v: Value)
    decreases v, 0
  {
    match v
    case VStruct(_, fields) => AllWellFormed(fields)
    case VList(et, elems) => |elems| < TWO32 && AllOfType(et, elems)
    case VSet(et, elems) => |elems| < TWO32 && AllOfType(et, elems)
    case VMap(kt, vt, entries) => |entries| < TWO32 && AllPairsOfType(kt, vt, entries)
    case _ => true
  }

  predicate AllWellFormed(fields: seq<Field>)
    decreases fields, 0
  {
    fields == [] || (FieldWellFormed(fields[0]) && AllWellFormed(fields[1..]))
  }

  predicate FieldWellFormed(f: Field)
    decreases f, 1
  {
    WellFormed(f.value)
  }

  predicate AllOfType(t: TType, elems: seq<Value>)
    decreases elems, 0
  {
    elems == [] || (TypeOf(elems[0]) == t && WellFormed(elems[0]) && AllOfType(t, elems[1..]))
  }

  predicate AllPairsOfType(kt: TType, vt: TType, entries: seq<Entry>)
    decreases entries, 0
  {
    entries == [] || (EntryOfType(kt, vt, entries[0]) && AllPairsOfType(kt, vt, entries[1..]))
  }

  predicate EntryOfType(kt: TType, vt: TType, e: Entry)
    decreases e, 1
  {
    TypeOf(e.key) == kt && TypeOf(e.val) == vt && WellFormed(e.key) && WellFormed(e.val)
  }

  lemma EncodeStruct(name: string, fields: seq<Field>, rest: Stream)
    ensures Encode(VStruct(name, fields)) + rest
            == [StructBegin(name)] + (EncodeFields(fields) + ([FieldStop] + ([StructEnd] + rest)))
  {
  }

  lemma EncodeList(t: TType, elems: seq<Value>, rest: Stream)
    ensures Encode(VList(t, elems)) + rest == [ListBegin(t, Size32(|elems|))] + (EncodeMany(elems) + ([ListEnd] + rest))
  {
  }

  // ---- Skipping what was written ----

  /** Skipping a well-formed value of any depth consumes its tokens and nothing else. */
  lemma {:induction false} SkipEncoded(v: Value, rest: Stream)
    requires WellFormed(v)
    ensures Skip(TypeOf(v), Encode(v) + rest) == Success(rest)
    decreases v, 1
  {
    match v
    case VStruct(_, _) => SkipEncodedStruct(v, rest);
    case VList(et, elems) => SkipEncodedList(v, rest);
    case VSet(et, elems) => SkipEncodedSet(v, rest);
    case VMap(kt, vt, entries) => SkipEncodedMap(v, rest);
    case _ =>
  }

  lemma {:induction false} SkipEncodedStruct(v: Value, rest: Stream)
    requires v.VStruct? && WellFormed(v)
    ensures Skip(T_STRUCT, Encode(v) + rest) == Success(rest)
    decreases v, 0
  {
    SkipEncodedFields(v.fields, [StructEnd] + rest);
    assert Encode(v) + rest == [StructBegin(v.name)] + (EncodeFields(v.fields) + [FieldStop] + ([StructEnd] + rest));
  }

  lemma {:induction false} SkipEncodedList(v: Value, rest: Stream)
    requires v.VList? && WellFormed(v)
    ensures Skip(T_LIST, Encode(v) + rest) == Success(rest)
    decreases v, 0
  {
    SkipEncodedMany(v.etype, v.elems, [ListEnd] + rest);
    EncodeList(v.etype, v.elems, rest);
  }

  lemma {:induction false} SkipEncodedSet(v: Value, rest: Stream)
    requires v.VSet? && WellFormed(v)
    ensures Skip(T_SET, Encode(v) + rest) == Success(rest)
    decreases v, 0
  {
    SkipEncodedMany(v.etype, v.elems, [SetEnd] + rest);
    assert Encode(v) + rest == [SetBegin(v.etype, Size32(|v.elems|))] + (EncodeMany(v.elems) + ([SetEnd] + rest));
  }

  lemma {:induction false} SkipEncodedMap(v: Value, rest: Stream)
    requires v.VMap? && WellFormed(v)
    ensures Skip(T_MAP, Encode(v) + rest) == Success(rest)
    decreases v, 0
  {
    SkipEncodedPairs(v.ktype, v.vtype, v.entries, [MapEnd] + rest);
    assert Encode(v) + rest
        == [MapBegin(v.ktype, v.vtype, Size32(|v.entries|))] + (EncodePairs(v.entries) + ([MapEnd] + rest));
  }

  lemma EncodeFieldsCons(f: Field, fields: seq<Field>, rest: Stream)
    ensures EncodeFields([f] + fields) + rest
            == [FieldBegin(f.name, TypeOf(f.value), f.fid)]
               + (Encode(f.value) + ([FieldEnd] + (EncodeFields(fields) + rest)))
  {
    assert ([f] + fields)[1..] == fields;
  }

  lemma {:induction false} SkipEncodedFields(fields: seq<Field>, rest: Stream)
    requires AllWellFormed(fields)
    ensures SkipFields(EncodeFields(fields) + [FieldStop] + rest) == Success(rest)
    decreases fields, 0
  {
    if fields == [] {
      assert EncodeFields(fields) + [FieldStop] + rest == [FieldStop] + rest;
    } else {
      var tail := EncodeFields(fields[1..]) + ([FieldStop] + rest);
      assert fields == [fields[0]] + fields[1..];
      EncodeFieldsCons(fields[0], fields[1..], [FieldStop] + rest);
      assert EncodeFields(fields) + ([FieldStop] + rest) == EncodeFields(fields) + [FieldStop] + rest;
      assert tail == EncodeFields(fields[1..]) + [FieldStop] + rest;
      SkipEncodedField(fields[0], [FieldEnd] + tail);
      SkipEncodedFields(fields[1..], rest);
      SkipFieldsUnfolds(fields[0], tail);
    }
  }

  lemma SkipFieldsUnfolds(f: Field, tail: Stream)
    requires Skip(TypeOf(f.value), Encode(f.value) + ([FieldEnd] + tail)) == Success([FieldEnd] + tail)
    ensures SkipFields([FieldBegin(f.name, TypeOf(f.value), f.fid)] + (Encode(f.value) + ([FieldEnd] + tail)))
            == SkipFields(tail)
  {
    assert ([FieldEnd] + tail)[1..] == tail;
  }

  lemma {:induction false} SkipEncodedField(f: Field, rest: Stream)
    requires FieldWellFormed(f)
    ensures Skip(TypeOf(f.value), Encode(f.value) + rest) == Success(rest)
    decreases f, 1
  {
    SkipEncoded(f.value, rest);
  }

  lemma {:induction false} SkipEncodedMany(t: TType, elems: seq<Value>, rest: Stream)
    requires AllOfType(t, elems)
    ensures SkipMany(t, |elems|, EncodeMany(elems) + rest) == Success(rest)
    decreases elems, 0
  {
    if elems == [] {
      assert EncodeMany(elems) + rest == rest;
    } else {
      var tail := EncodeMany(elems[1..]) + rest;
      assert EncodeMany(elems) + rest == Encode(elems[0]) + tail;
      SkipEncoded(elems[0], tail);
      SkipEncodedMany(t, elems[1..], rest);
    }
  }

  lemma {:induction false} SkipEncodedPairs(kt: TType, vt: TType, entries: seq<Entry>, rest: Stream)
    requires AllPairsOfType(kt, vt, entries)
    ensures SkipPairs(kt, vt, |entries|, EncodePairs(entries) + rest) == Success(rest)
    decreases entries, 0
  {
    if entries == [] {
      assert EncodePairs(entries) + rest == rest;
    } else {
      var tail := EncodePairs(entries[1..]) + rest;
      assert EncodePairs(entries) + rest == Encode(entries[0].key) + (Encode(entries[0].val) + tail);
      SkipEncodedEntry(kt, vt, entries[0], tail);
      SkipEncodedPairs(kt, vt, entries[1..], rest);
    }
  }

  lemma {:induction false} SkipEncodedEntry(kt: TType, vt: TType, e: Entry, rest: Stream)
    requires EntryOfType(kt, vt, e)
    ensures Skip(kt, Encode(e.key) + (Encode(e.val) + rest)) == Success(Encode(e.val) + rest)
    ensures Skip(vt, Encode(e.val) + rest) == Success(rest)
    decreases e, 1
  {
    SkipEncoded(e.key, Encode(e.val) + rest);
    SkipEncoded(e.val, rest);
  }

  lemma {:induction false} EncodeFieldsConcat(a: seq<Field>, b: seq<Field>)
    ensures EncodeFields(a + b) == EncodeFields(a) + EncodeFields(b)
  {
    if a == [] {
      assert a + b == b;
    } else {
      assert (a + b)[1..] == a[1..] + b;
      EncodeFieldsConcat(a[1..], b);
    }
  }

  lemma {:induction false} EncodeManyConcat(a: seq<Value>, b: seq<Value>)
    ensures EncodeMany(a + b) == EncodeMany(a) + EncodeMany(b)
  {
    if a == [] {
      assert a + b == b;
    } else {
      assert (a + b)[1..] == a[1..] + b;
      EncodeManyConcat(a[1..], b);
    }
  }

  // ---- Bytes on the wire ----

  /** The bytes of a token sequence, for any size the transport gives to each token. */
  function Bytes(toks: Stream, size: Token -> nat): nat {
    if toks == [] then 0 else size(toks[0]) + Bytes(toks[1..], size)
  }

  lemma {:induction false} BytesConcat(a: Stream, b: Stream, size: Token -> nat)
    ensures Bytes(a + b, size) == Bytes(a, size) + Bytes(b, size)
  {
    if a == [] {
      assert a + b == b;
    } else {
      assert (a + b)[1..] == a[1..] + b;
      BytesConcat(a[1..], b, size);
    }
  }
}
