/** The converse of writing: what the protocol's skip accepts is what a writer emits for some well-formed value, apart
    from streams that announce the type T_STOP. */
module ThriftStreams {
  import opened Wrappers
  import opened Integers
  import opened ThriftProtocol

  /** The token announces no field or element of type T_STOP. */
  predicate Announces(tok: Token) {
    match tok
    case FieldBegin(_, t, _) => t != T_STOP
    case ListBegin(t, _) => t != T_STOP
    case SetBegin(t, _) => t != T_STOP
    case MapBegin(k, v, _) => k != T_STOP && v != T_STOP
    case _ => true
  }

  ghost predicate Plain(toks: Stream) {
    forall i :: 0 <= i < |toks| ==> Announces(toks[i])
  }

  lemma PlainTail(toks: Stream)
    requires Plain(toks) && toks != []
    ensures Plain(toks[1..]) && Announces(toks[0])
  {
  }

  lemma PlainRest(front: Stream, rest: Stream)
    requires Plain(front + rest)
    ensures Plain(rest)
  {
    forall i | 0 <= i < |rest|
      ensures Announces(rest[i])
    {
      assert (front + rest)[|front| + i] == rest[i];
    }
  }

  /** The value that a scalar token carries. */
  function ScalarValue(tok: Token): Option<Value> {
    match tok
    case Bool(b) => Some(VBool(b))
    case Byte(n) => Some(VByte(n))
    case I16(n) => Some(VI16(n))
    case I32(n) => Some(VI32(n))
    case I64(n) => Some(VI64(n))
    case Double(d) => Some(VDouble(d))
    case Str(s) => Some(VStr(s))
    case _ => None
  }

  /** The stream begins with the encoding of the value and goes on with the rest. */
  ghost predicate Begins(t: TType, v: Value, toks: Stream, rest: Stream) {
    TypeOf(v) == t && WellFormed(v) && toks == Encode(v) + rest
  }

  lemma ScalarSkipped(t: TType, toks: Stream) returns (v: Value)
    requires toks != [] && IsScalar(t, toks[0])
    ensures Begins(t, v, toks, toks[1..])
  {
    v := ScalarValue(toks[0]).value;
    assert Encode(v) == [toks[0]];
    assert toks == [toks[0]] + toks[1..];
  }

  lemma ClosedStream(open: Token, inside: Stream, after: Stream, close: Token, toks: Stream, body: Stream)
    requires toks != [] && toks[0] == open && toks[1..] == body + inside
    requires inside != [] && inside[0] == close && inside[1..] == after
    ensures toks == [open] + body + [close] + after
  {
    assert inside == [close] + after;
    assert toks == [open] + toks[1..];
  }

  lemma {:induction false} SkippedIsValue(t: TType, toks: Stream) returns (v: Value)
    requires Plain(toks) && t != T_STOP && Skip(t, toks).Success?
    ensures Begins(t, v, toks, Skip(t, toks).value)
    decreases |toks|, 1
  {
    match t
    case T_STRUCT => v := SkippedStruct(toks);
    case T_LIST => v := SkippedList(toks);
    case T_SET => v := SkippedSet(toks);
    case T_MAP => v := SkippedMap(toks);
    case _ => v := ScalarSkipped(t, toks);
  }

  lemma {:induction false} SkippedStruct(toks: Stream) returns (v: Value)
    requires Plain(toks) && Skip(T_STRUCT, toks).Success?
    ensures Begins(T_STRUCT, v, toks, Skip(T_STRUCT, toks).value)
    decreases |toks|, 0
  {
    PlainTail(toks);
    var inside := SkipFields(toks[1..]).value;
    var fields := SkippedFields(toks[1..]);
    v := VStruct(toks[0].name, fields);
    var after := Skip(T_STRUCT, toks).value;
    ClosedStream(toks[0], inside, after, StructEnd, toks, EncodeFields(fields) + [FieldStop]);
    assert [FieldStop] + [StructEnd] == [FieldStop, StructEnd];
    assert Encode(v) == [toks[0]] + (EncodeFields(fields) + [FieldStop]) + [StructEnd];
  }

  lemma {:induction false} SkippedList(toks: Stream) returns (v: Value)
    requires Plain(toks) && Skip(T_LIST, toks).Success?
    ensures Begins(T_LIST, v, toks, Skip(T_LIST, toks).value)
    decreases |toks|, 0
  {
    PlainTail(toks);
    var inside := SkipMany(toks[0].etype, toks[0].size, toks[1..]).value;
    var elems := SkippedMany(toks[0].etype, toks[0].size, toks[1..]);
    v := VList(toks[0].etype, elems);
    ClosedStream(toks[0], inside, Skip(T_LIST, toks).value, ListEnd, toks, EncodeMany(elems));
    ListEncodes(toks[0].etype, elems);
  }

  lemma ListEncodes(t: TType, elems: seq<Value>)
    requires |elems| < TWO32 && AllOfType(t, elems)
    ensures Encode(VList(t, elems)) == [ListBegin(t, |elems|)] + EncodeMany(elems) + [ListEnd]
    ensures WellFormed(VList(t, elems))
  {
  }

  lemma {:induction false} SkippedSet(toks: Stream) returns (v: Value)
    requires Plain(toks) && Skip(T_SET, toks).Success?
    ensures Begins(T_SET, v, toks, Skip(T_SET, toks).value)
    decreases |toks|, 0
  {
    PlainTail(toks);
    var inside := SkipMany(toks[0].etype, toks[0].size, toks[1..]).value;
    var elems := SkippedMany(toks[0].etype, toks[0].size, toks[1..]);
    v := VSet(toks[0].etype, elems);
    ClosedStream(toks[0], inside, Skip(T_SET, toks).value, SetEnd, toks, EncodeMany(elems));
  }

  lemma {:induction false} SkippedMap(toks: Stream) returns (v: Value)
    requires Plain(toks) && Skip(T_MAP, toks).Success?
    ensures Begins(T_MAP, v, toks, Skip(T_MAP, toks).value)
    decreases |toks|, 0
  {
    PlainTail(toks);
    var inside := SkipPairs(toks[0].ktype, toks[0].vtype, toks[0].size, toks[1..]).value;
    var entries := SkippedPairs(toks[0].ktype, toks[0].vtype, toks[0].size, toks[1..]);
    v := VMap(toks[0].ktype, toks[0].vtype, entries);
    ClosedStream(toks[0], inside, Skip(T_MAP, toks).value, MapEnd, toks, EncodePairs(entries));
    MapEncodes(toks[0].ktype, toks[0].vtype, entries);
  }

  lemma MapEncodes(kt: TType, vt: TType, entries: seq<Entry>)
    requires |entries| < TWO32 && AllPairsOfType(kt, vt, entries)
    ensures Encode(VMap(kt, vt, entries)) == [MapBegin(kt, vt, |entries|)] + EncodePairs(entries) + [MapEnd]
    ensures WellFormed(VMap(kt, vt, entries))
  {
  }

  lemma FieldsCons(f: Field, more: seq<Field>, toks: Stream, rest: Stream, next: Stream, after: Stream)
    requires toks != [] && toks[0] == FieldBegin(f.name, TypeOf(f.value), f.fid)
    requires toks[1..] == Encode(f.value) + rest && rest != [] && rest[0] == FieldEnd && rest[1..] == next
    requires next == EncodeFields(more) + [FieldStop] + after
    ensures toks == EncodeFields([f] + more) + [FieldStop] + after
  {
    EncodeFieldsCons(f, more, [FieldStop] + after);
    assert EncodeFields(more) + ([FieldStop] + after) == next;
    assert rest == [FieldEnd] + next;
    assert toks == [toks[0]] + toks[1..];
    assert EncodeFields([f] + more) + ([FieldStop] + after) == EncodeFields([f] + more) + [FieldStop] + after;
  }

  lemma {:induction false} SkippedFields(toks: Stream) returns (fields: seq<Field>)
    requires Plain(toks) && SkipFields(toks).Success?
    ensures AllWellFormed(fields) && toks == EncodeFields(fields) + [FieldStop] + SkipFields(toks).value
    decreases |toks|, 0
  {
    PlainTail(toks);
    if toks[0].FieldStop? {
      fields := [];
      assert toks == [FieldStop] + toks[1..];
    } else {
      var v := SkippedIsValue(toks[0].ftype, toks[1..]);
      var rest := Skip(toks[0].ftype, toks[1..]).value;
      PlainRest(Encode(v), rest);
      PlainTail(rest);
      var more := SkippedFields(rest[1..]);
      var f := Field(toks[0].name, toks[0].fid, v);
      fields := [f] + more;
      FieldsCons(f, more, toks, rest, rest[1..], SkipFields(toks).value);
      assert fields[1..] == more;
    }
  }

  lemma {:induction false} SkippedMany(t: TType, n: nat, toks: Stream) returns (elems: seq<Value>)
    requires Plain(toks) && t != T_STOP && SkipMany(t, n, toks).Success?
    ensures |elems| == n && AllOfType(t, elems) && toks == EncodeMany(elems) + SkipMany(t, n, toks).value
    decreases |toks|, n + 1
  {
    if n == 0 {
      elems := [];
    } else {
      var v := SkippedIsValue(t, toks);
      var rest := Skip(t, toks).value;
      PlainRest(Encode(v), rest);
      var more := SkippedMany(t, n - 1, rest);
      elems := [v] + more;
      ManyCons(t, v, more, SkipMany(t, n, toks).value);
    }
  }

  lemma ManyCons(t: TType, v: Value, more: seq<Value>, after: Stream)
    ensures Encode(v) + (EncodeMany(more) + after) == EncodeMany([v] + more) + after
    ensures TypeOf(v) == t && WellFormed(v) && AllOfType(t, more) ==> AllOfType(t, [v] + more)
  {
    assert ([v] + more)[1..] == more;
  }

  lemma {:induction false} SkippedPairs(kt: TType, vt: TType, n: nat, toks: Stream) returns (entries: seq<Entry>)
    requires Plain(toks) && kt != T_STOP && vt != T_STOP && SkipPairs(kt, vt, n, toks).Success?
    ensures |entries| == n && AllPairsOfType(kt, vt, entries)
    ensures toks == EncodePairs(entries) + SkipPairs(kt, vt, n, toks).value
    decreases |toks|, n + 1
  {
    if n == 0 {
      entries := [];
    } else {
      var k := SkippedIsValue(kt, toks);
      var rest := Skip(kt, toks).value;
      PlainRest(Encode(k), rest);
      var v := SkippedIsValue(vt, rest);
      var next := Skip(vt, rest).value;
      PlainRest(Encode(v), next);
      var more := SkippedPairs(kt, vt, n - 1, next);
      entries := [Entry(k, v)] + more;
      PairsCons(kt, vt, Entry(k, v), more, SkipPairs(kt, vt, n, toks).value);
    }
  }

  lemma PairsCons(kt: TType, vt: TType, e: Entry, more: seq<Entry>, after: Stream)
    ensures Encode(e.key) + (Encode(e.val) + (EncodePairs(more) + after)) == EncodePairs([e] + more) + after
    ensures EntryOfType(kt, vt, e) && AllPairsOfType(kt, vt, more) ==> AllPairsOfType(kt, vt, [e] + more)
  {
    assert ([e] + more)[1..] == more;
  }

  /** A stream can be skipped, leaving this rest, exactly when it begins with what a writer emits for some well-formed
      value of the type. */
  lemma SkipsExactly(t: TType, toks: Stream, rest: Stream)
    requires Plain(toks) && t != T_STOP
    ensures Skip(t, toks) == Success(rest) <==> exists v :: Begins(t, v, toks, rest)
  {
    if Skip(t, toks) == Success(rest) {
      var v := SkippedIsValue(t, toks);
      assert Begins(t, v, toks, rest);
    }
    if v :| Begins(t, v, toks, rest) {
      SkipEncoded(v, rest);
    }
  }
}
