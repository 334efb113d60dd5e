/** The generated reader and writer as they run: loops over a protocol object, accumulating the bytes transferred. */
module RadiusRecordIO {
  import opened Wrappers
  import opened Integers
  import opened ThriftProtocol
  import R = RadiusRecords

  /** `xfer` is the byte count, in 32 bits, of what lies between the two stream lengths. */
  ghost predicate Tally(xfer: uint32, shorter: Stream, longer: Stream, size: Token -> nat) {
    xfer == (Bytes(longer, size) - Bytes(shorter, size)) % TWO32
  }

  lemma TallyAdd(x: uint32, y: uint32, a: Stream, b: Stream, c: Stream, size: Token -> nat)
    requires Tally(x, a, b, size) && Tally(y, b, c, size)
    ensures Tally((x + y) % TWO32, a, c, size)
  {
    SumMod(Bytes(b, size) - Bytes(a, size), Bytes(c, size) - Bytes(b, size));
  }

  lemma SumMod(p: int, q: int)
    ensures (p % TWO32 + q % TWO32) % TWO32 == (p + q) % TWO32
  {
  }

  lemma TallyWritten(sofar: uint32, start: Stream, output: Stream, tok: Token, size: Token -> nat)
    requires Tally(sofar, start, output, size)
    ensures Tally((sofar + size(tok)) % TWO32, start, output + [tok], size)
  {
    BytesConcat(output, [tok], size);
    assert Bytes([tok], size) == size(tok) + Bytes([tok][1..], size);
    SumMod(Bytes(output, size) - Bytes(start, size), size(tok));
    SumMod(sofar, size(tok));
  }

  lemma TallyRead(sofar: uint32, input: Stream, start: Stream, size: Token -> nat)
    requires Tally(sofar, input, start, size) && input != []
    ensures Tally((sofar + size(input[0])) % TWO32, input[1..], start, size)
  {
    SumMod(Bytes(start, size) - Bytes(input, size), size(input[0]));
    SumMod(sofar, size(input[0]));
  }

  /** The protocol object: reads take tokens off `input`, writes append to `output`. Each call returns the running
      total of the caller, which began at stream `start`. */
  class TProtocol {
    const size: Token -> nat
    var input: Stream
    var output: Stream

    constructor (size: Token -> nat, input: Stream)
      ensures this.size == size && this.input == input && output == []
    {
      this.size, this.input, output := size, input, [];
    }

    method Write(tok: Token, sofar: uint32, ghost start: Stream) returns (xfer: uint32)
      requires Tally(sofar, start, output, size)
      modifies `output
      ensures output == old(output) + [tok]
      ensures Tally(xfer, start, output, size)
    {
      TallyWritten(sofar, start, output, tok, size);
      xfer := (sofar + size(tok)) % TWO32;
      output := output + [tok];
    }

    method Read(expected: Token -> bool, sofar: uint32, ghost start: Stream)
      returns (r: Result<Token, ProtocolError>, xfer: uint32)
      requires Tally(sofar, input, start, size)
      modifies `input
      ensures r.Success? <==> old(input) != [] && expected(old(input)[0])
      ensures r.Success? ==> r.value == old(input)[0] && input == old(input)[1..] && Tally(xfer, input, start, size)
      ensures r.Failure? ==> r.error == MALFORMED
    {
      if input == [] || !expected(input[0]) {
        return Failure(MALFORMED), sofar;
      }
      TallyRead(sofar, input, start, size);
      r, xfer := Success(input[0]), (sofar + size(input[0])) % TWO32;
      input := input[1..];
    }

    /** The library's skip, by its effect: it drops what the function `Skip` drops. */
    method SkipValue(t: TType, sofar: uint32, ghost start: Stream) returns (r: Result<uint32, ProtocolError>)
      requires Tally(sofar, input, start, size)
      modifies `input
      ensures r.Failure? <==> Skip(t, old(input)).Failure?
      ensures r.Failure? ==> r.error == Skip(t, old(input)).error
      ensures r.Success? ==> Skip(t, old(input)) == Success(input) && Tally(r.value, input, start, size)
    {
      var rest :- Skip(t, input);
      var n := (Bytes(input, size) - Bytes(rest, size)) % TWO32;
      TallyAdd(n, sofar, rest, input, start, size);
      input := rest;
      r := Success((n + sofar) % TWO32);
    }
  }

  /** The three calls that write a field of a scalar type. */
  method WriteScalarField(begin: Token, value: Token, oprot: TProtocol, sofar: uint32, ghost start: Stream)
    returns (xfer: uint32)
    requires Tally(sofar, start, oprot.output, oprot.size)
    modifies oprot`output
    ensures oprot.output == old(oprot.output) + [begin, value, FieldEnd]
    ensures Tally(xfer, start, oprot.output, oprot.size)
  {
    xfer := oprot.Write(begin, sofar, start);
    xfer := oprot.Write(value, xfer, start);
    xfer := oprot.Write(FieldEnd, xfer, start);
  }

  /** `RadiusAvp::write`. */
  method WriteAvp(a: R.Avp, oprot: TProtocol) returns (xfer: uint32)
    modifies oprot`output
    ensures oprot.output == old(oprot.output) + Encode(R.AvpValue(a))
    ensures Tally(xfer, old(oprot.output), oprot.output, oprot.size)
  {
    ghost var start := oprot.output;
    xfer := oprot.Write(StructBegin("RadiusAvp"), 0, start);
    xfer := WriteScalarField(FieldBegin("type", T_BYTE, 1), Byte(a.kind), oprot, xfer, start);
    xfer := WriteScalarField(FieldBegin("value", T_STRING, 2), Str(a.value), oprot, xfer, start);
    xfer := oprot.Write(FieldStop, xfer, start);
    xfer := oprot.Write(StructEnd, xfer, start);
    assert oprot.output == start + AvpStream(a);
    AvpTokens(a);
  }

  lemma TwoFieldTokens(f: Field, g: Field)
    ensures EncodeFields([f, g]) == EncodeField(f) + EncodeField(g)
  {
    assert [f, g][1..] == [g] && [g][1..] == [];
    assert EncodeFields([g]) == EncodeField(g) + EncodeFields([]);
  }

  function AvpStream(a: R.Avp): Stream {
    [StructBegin("RadiusAvp"), FieldBegin("type", T_BYTE, 1), Byte(a.kind), FieldEnd,
     FieldBegin("value", T_STRING, 2), Str(a.value), FieldEnd, FieldStop, StructEnd]
  }

  lemma AvpTokens(a: R.Avp)
    ensures Encode(R.AvpValue(a)) == AvpStream(a)
  {
    var f, g := Field("type", 1, VByte(a.kind)), Field("value", 2, VStr(a.value));
    var e1 := [FieldBegin("type", T_BYTE, 1), Byte(a.kind), FieldEnd];
    var e2 := [FieldBegin("value", T_STRING, 2), Str(a.value), FieldEnd];
    TwoFieldTokens(f, g);
    assert EncodeField(f) == e1 && EncodeField(g) == e2;
    var whole := [StructBegin("RadiusAvp")] + (e1 + e2) + [FieldStop, StructEnd];
    assert Encode(R.AvpValue(a)) == whole;
    assert |whole| == 9 && forall i :: 0 <= i < 9 ==> whole[i] == AvpStream(a)[i];
  }

  /** The loop over the records of a list. */
  method WriteAvps(avps: seq<R.Avp>, oprot: TProtocol, sofar: uint32, ghost start: Stream) returns (xfer: uint32)
    requires Tally(sofar, start, oprot.output, oprot.size)
    modifies oprot`output
    ensures oprot.output == old(oprot.output) + EncodeMany(R.AvpValues(avps))
    ensures Tally(xfer, start, oprot.output, oprot.size)
  {
    xfer := sofar;
    ghost var before := oprot.output;
    EmittedEnds(before, avps);
    for i := 0 to |avps|
      invariant oprot.output == Emitted(before, avps, i)
      invariant Tally(xfer, start, oprot.output, oprot.size)
    {
      ghost var here := oprot.output;
      var n := WriteAvp(avps[i], oprot);
      TallyAdd(xfer, n, start, here, oprot.output, oprot.size);
      xfer := (xfer + n) % TWO32;
      EmittedNext(before, avps, i);
    }
  }

  /** The stream once the first `n` avps have been written behind `before`. */
  function Emitted(before: Stream, avps: seq<R.Avp>, n: nat): Stream
    requires n <= |avps|
  {
    before + EncodeMany(R.AvpValues(avps[..n]))
  }

  lemma EmittedEnds(before: Stream, avps: seq<R.Avp>)
    ensures Emitted(before, avps, 0) == before
    ensures Emitted(before, avps, |avps|) == before + EncodeMany(R.AvpValues(avps))
  {
    assert R.AvpValues(avps[..0]) == [];
    assert avps[..|avps|] == avps;
  }

  lemma EmittedNext(before: Stream, avps: seq<R.Avp>, i: nat)
    requires i < |avps|
    ensures Emitted(before, avps, i + 1) == Emitted(before, avps, i) + Encode(R.AvpValue(avps[i]))
  {
    EncodeOneMore(avps, i);
  }

  /** One list field; the size is announced in 32 bits. */
  method WriteAvpListField(name: string, fid: int16, avps: seq<R.Avp>, oprot: TProtocol, sofar: uint32,
                           ghost start: Stream)
    returns (xfer: uint32)
    requires Tally(sofar, start, oprot.output, oprot.size)
    modifies oprot`output
    ensures oprot.output == old(oprot.output) + EncodeFields(R.ListField(true, name, fid, avps))
    ensures Tally(xfer, start, oprot.output, oprot.size)
  {
    xfer := oprot.Write(FieldBegin(name, T_LIST, fid), sofar, start);
    xfer := oprot.Write(ListBegin(T_STRUCT, Size32(|avps|)), xfer, start);
    xfer := WriteAvps(avps, oprot, xfer, start);
    xfer := oprot.Write(ListEnd, xfer, start);
    xfer := oprot.Write(FieldEnd, xfer, start);
    ListFieldTokens(name, fid, avps);
    Regroup(old(oprot.output), [FieldBegin(name, T_LIST, fid)], [ListBegin(T_STRUCT, Size32(|avps|))],
            EncodeMany(R.AvpValues(avps)), [ListEnd], [FieldEnd]);
  }

  lemma ListFieldTokens(name: string, fid: int16, avps: seq<R.Avp>)
    ensures EncodeFields(R.ListField(true, name, fid, avps))
            == [FieldBegin(name, T_LIST, fid)] + [ListBegin(T_STRUCT, Size32(|avps|))]
               + EncodeMany(R.AvpValues(avps)) + [ListEnd] + [FieldEnd]
  {
    var f := Field(name, fid, VList(T_STRUCT, R.AvpValues(avps)));
    EncodeFieldsCons(f, [], []);
    assert [f] == [f] + [];
  }

  lemma EncodeOneMore(avps: seq<R.Avp>, i: nat)
    requires i < |avps|
    ensures EncodeMany(R.AvpValues(avps[..i + 1])) == EncodeMany(R.AvpValues(avps[..i])) + Encode(R.AvpValue(avps[i]))
  {
    var last := [R.AvpValue(avps[i])];
    assert R.AvpValues(avps[..i + 1]) == R.AvpValues(avps[..i]) + last;
    EncodeManyConcat(R.AvpValues(avps[..i]), last);
    assert last[1..] == [];
  }

  /** `RadiusAvp::read` into a fresh avp: fields in any order, unwanted ones skipped, both fields required at the
      end. */
  method ReadAvp(iprot: TProtocol) returns (r: Result<R.Avp, ProtocolError>, xfer: uint32)
    modifies iprot`input
    ensures match R.ReadAvp(old(iprot.input))
            case Success(out) =>
              r == Success(out.0) && iprot.input == out.1 && Tally(xfer, iprot.input, old(iprot.input), iprot.size)
            case Failure(e) => r == Failure(e)
  {
    ghost var start := iprot.input;
    xfer := 0;
    var _, x0 :- iprot.Read((k: Token) => k.StructBegin?, xfer, start);
    xfer := x0;
    ghost var inside := iprot.input;
    var d := R.FRESH_AVP;
    while true
      invariant R.ReadAvpFields(d, iprot.input) == R.ReadAvpFields(R.FRESH_AVP, inside)
      invariant Tally(xfer, iprot.input, start, iprot.size)
      decreases |iprot.input|
    {
      var field, x1 :- iprot.Read((k: Token) => R.EndsFields(k) || k.FieldBegin?, xfer, start);
      xfer := x1;
      if R.EndsFields(field) {
        break;
      }
      if field.fid == 1 && field.ftype == T_BYTE {
        var tok, x2 :- iprot.Read((k: Token) => k.Byte?, xfer, start);
        d, xfer := d.(avp := d.avp.(kind := tok.n8), hasKind := true), x2;
      } else if field.fid == 2 && field.ftype == T_STRING {
        var tok, x2 :- iprot.Read((k: Token) => k.Str?, xfer, start);
        d, xfer := d.(avp := d.avp.(value := tok.s), hasValue := true), x2;
      } else {
        xfer :- iprot.SkipValue(field.ftype, xfer, start);
      }
      var _, x3 :- iprot.Read((k: Token) => k.FieldEnd?, xfer, start);
      xfer := x3;
    }
    var _, x4 :- iprot.Read((k: Token) => k.StructEnd?, xfer, start);
    xfer := x4;
    if !d.hasKind || !d.hasValue {
      return Failure(INVALID_DATA), xfer;
    }
    r := Success(d.avp);
  }

  /** Filling a vector from element `i` on. */
  function Filled(avps: seq<R.Avp>, i: nat, toks: Stream): Result<(seq<R.Avp>, Stream), ProtocolError>
    requires i <= |avps|
    decreases |avps| - i
  {
    if i == |avps| then Success((avps, toks))
    else
      match R.ReadAvp(toks)
      case Success(out) => Filled(avps[i := out.0], i + 1, out.1)
      case Failure(e) => Failure(e)
  }

  /** Filling a vector is reading a list: what is stored before `i` stays, the rest is read. */
  lemma {:induction false} FilledIsRead(avps: seq<R.Avp>, i: nat, toks: Stream)
    requires i <= |avps|
    ensures Filled(avps, i, toks)
            == match R.ReadAvps(|avps| - i, toks)
               case Success(out) => Success((avps[..i] + out.0, out.1))
               case Failure(e) => Failure(e)
    decreases |avps| - i
  {
    if i == |avps| {
      assert avps[..i] + [] == avps;
    } else {
      match R.ReadAvp(toks)
      case Failure(_) =>
      case Success(out) =>
        FilledIsRead(avps[i := out.0], i + 1, out.1);
        var more := R.ReadAvps(|avps| - i - 1, out.1);
        if more.Success? {
          StoredThenRead(avps, i, out.0, more.value.0);
        }
    }
  }

  lemma StoredThenRead(avps: seq<R.Avp>, i: nat, avp: R.Avp, more: seq<R.Avp>)
    requires i < |avps|
    ensures avps[i := avp][..i + 1] + more == avps[..i] + ([avp] + more)
  {
    assert avps[i := avp][..i + 1] == avps[..i] + [avp];
  }

  lemma FilledFresh(avps: seq<R.Avp>, toks: Stream)
    ensures Filled(avps, 0, toks) == R.ReadAvps(|avps|, toks)
  {
    FilledIsRead(avps, 0, toks);
    var whole := R.ReadAvps(|avps|, toks);
    if whole.Success? {
      assert avps[..0] + whole.value.0 == whole.value.0;
      assert whole == Success((whole.value.0, whole.value.1));
    }
  }

  /** The elements of a list, read one after the other into a vector of announced size. */
  method ReadAvps(n: uint32, iprot: TProtocol, sofar: uint32, ghost start: Stream)
    returns (r: Result<seq<R.Avp>, ProtocolError>, xfer: uint32)
    requires Tally(sofar, iprot.input, start, iprot.size)
    modifies iprot`input
    ensures match R.ReadAvps(n, old(iprot.input))
            case Success(out) =>
              r == Success(out.0) && iprot.input == out.1 && Tally(xfer, iprot.input, start, iprot.size)
            case Failure(e) => r == Failure(e)
  {
    xfer := sofar;
    var avps := seq(n, _ => R.FRESH_AVP.avp);
    FilledFresh(avps, iprot.input);
    ghost var whole := Filled(avps, 0, iprot.input);
    for i := 0 to n
      invariant |avps| == n
      invariant Tally(xfer, iprot.input, start, iprot.size)
      invariant Filled(avps, i, iprot.input) == whole
    {
      ghost var here := iprot.input;
      var avp, x :- ReadAvp(iprot);
      TallyAdd(x, xfer, iprot.input, here, start, iprot.size);
      avps, xfer := avps[i := avp], (x + xfer) % TWO32;
    }
    r := Success(avps);
  }

  method ReadAvpList(iprot: TProtocol, sofar: uint32, ghost start: Stream)
    returns (r: Result<seq<R.Avp>, ProtocolError>, xfer: uint32)
    requires Tally(sofar, iprot.input, start, iprot.size)
    modifies iprot`input
    ensures match R.ReadAvpList(old(iprot.input))
            case Success(out) =>
              r == Success(out.0) && iprot.input == out.1 && Tally(xfer, iprot.input, start, iprot.size)
            case Failure(e) => r == Failure(e)
  {
    xfer := sofar;
    var list, x1 :- iprot.Read((k: Token) => k.ListBegin?, sofar, start);
    var avps, x2 :- ReadAvps(list.size, iprot, x1, start);
    var _, x3 :- iprot.Read((k: Token) => k.ListEnd?, x2, start);
    r, xfer := Success(avps), x3;
  }

  /** The request record as an object that is filled field by field. */
  class RadiusRequest {
    var captureTimestamp: int32
    var sourceId: int32
    var avpRequestList: seq<R.Avp>
    var avpResponseList: seq<R.Avp>
    var isset: R.Isset

    constructor ()
      ensures Value() == R.FRESH_REQUEST
    {
      captureTimestamp, sourceId := 0, 0;
      avpRequestList, avpResponseList := [], [];
      isset := R.Isset(false, false, false, false);
    }

    function Value(): R.Request
      reads this
    {
      R.Request(captureTimestamp, sourceId, avpRequestList, avpResponseList, isset)
    }

    /** The value of one field; `ftype` decides between reading and skipping. */
    method ReadField(fid: int16, ftype: TType, iprot: TProtocol, sofar: uint32, ghost start: Stream)
      returns (r: Result<uint32, ProtocolError>)
      requires Tally(sofar, iprot.input, start, iprot.size)
      modifies this, iprot`input
      ensures match R.ReadRequestField(old(Value()), fid, ftype, old(iprot.input))
              case Success(out) =>
                r.Success? && Value() == out.0 && iprot.input == out.1 && Tally(r.value, iprot.input, start, iprot.size)
              case Failure(e) => r == Failure(e)
    {
      if fid == 1 && ftype == T_I32 {
        var tok, x :- iprot.Read((k: Token) => k.I32?, sofar, start);
        captureTimestamp, isset := tok.n32, isset.(captureTimestamp := true);
        r := Success(x);
      } else if fid == 2 && ftype == T_I32 {
        var tok, x :- iprot.Read((k: Token) => k.I32?, sofar, start);
        sourceId, isset := tok.n32, isset.(sourceId := true);
        r := Success(x);
      } else if fid == 3 && ftype == T_LIST {
        var avps, x :- ReadAvpList(iprot, sofar, start);
        avpRequestList, isset := avps, isset.(avpRequestList := true);
        r := Success(x);
      } else if fid == 4 && ftype == T_LIST {
        var avps, x :- ReadAvpList(iprot, sofar, start);
        avpResponseList, isset := avps, isset.(avpResponseList := true);
        r := Success(x);
      } else {
        r := iprot.SkipValue(ftype, sofar, start);
      }
    }

    /** `RadiusRequest::read`: over whatever the object held before. */
    method Read(iprot: TProtocol) returns (r: Result<uint32, ProtocolError>)
      modifies this, iprot`input
      ensures match R.ReadRequest(old(Value()), old(iprot.input))
              case Success(out) =>
                && r.Success? && Value() == out.0 && iprot.input == out.1
                && Tally(r.value, iprot.input, old(iprot.input), iprot.size)
              case Failure(e) => r == Failure(e)
    {
      ghost var start := iprot.input;
      var _, x0 :- iprot.Read((k: Token) => k.StructBegin?, 0, start);
      var xfer := x0;
      ghost var inside := iprot.input;
      while true
        invariant R.ReadRequestFields(Value(), iprot.input) == R.ReadRequestFields(old(Value()), inside)
        invariant Tally(xfer, iprot.input, start, iprot.size)
        decreases |iprot.input|
      {
        var field, x1 :- iprot.Read((k: Token) => R.EndsFields(k) || k.FieldBegin?, xfer, start);
        xfer := x1;
        if R.EndsFields(field) {
          break;
        }
        xfer :- ReadField(field.fid, field.ftype, iprot, xfer, start);
        var _, x3 :- iprot.Read((k: Token) => k.FieldEnd?, xfer, start);
        xfer := x3;
      }
      var _, x4 :- iprot.Read((k: Token) => k.StructEnd?, xfer, start);
      r := Success(x4);
    }

    /** `RadiusRequest::write`. */
    method Write(oprot: TProtocol) returns (xfer: uint32)
      modifies oprot`output
      ensures oprot.output == old(oprot.output) + R.WriteRequest(Value())
      ensures Tally(xfer, old(oprot.output), oprot.output, oprot.size)
    {
      ghost var start, r := oprot.output, Value();
      xfer := WriteScalars(oprot);
      if isset.avpRequestList {
        xfer := WriteAvpListField("avpRequestList", 3, avpRequestList, oprot, xfer, start);
      }
      ghost var third := EncodeFields(R.ListField(r.isset.avpRequestList, "avpRequestList", 3, r.avpRequestList));
      assert oprot.output == start + ScalarTokens(r) + third;
      if isset.avpResponseList {
        xfer := WriteAvpListField("avpResponseList", 4, avpResponseList, oprot, xfer, start);
      }
      ghost var fourth := EncodeFields(R.ListField(r.isset.avpResponseList, "avpResponseList", 4, r.avpResponseList));
      assert oprot.output == start + ScalarTokens(r) + third + fourth;
      xfer := oprot.Write(FieldStop, xfer, start);
      xfer := oprot.Write(StructEnd, xfer, start);
      RequestTokens(r);
      Regroup(start, ScalarTokens(r), third, fourth, [FieldStop], [StructEnd]);
    }

    /** The required fields, always written. */
    method WriteScalars(oprot: TProtocol) returns (xfer: uint32)
      modifies oprot`output
      ensures oprot.output == old(oprot.output) + ScalarTokens(Value())
      ensures Tally(xfer, old(oprot.output), oprot.output, oprot.size)
    {
      ghost var start := oprot.output;
      xfer := oprot.Write(StructBegin("RadiusRequest"), 0, start);
      xfer := WriteScalarField(FieldBegin("captureTimestamp", T_I32, 1), I32(captureTimestamp), oprot, xfer, start);
      xfer := WriteScalarField(FieldBegin("sourceId", T_I32, 2), I32(sourceId), oprot, xfer, start);
    }
  }

  function ScalarTokens(r: R.Request): Stream {
    [StructBegin("RadiusRequest"), FieldBegin("captureTimestamp", T_I32, 1), I32(r.captureTimestamp), FieldEnd,
     FieldBegin("sourceId", T_I32, 2), I32(r.sourceId), FieldEnd]
  }

  lemma Regroup(a: Stream, b: Stream, c: Stream, d: Stream, e: Stream, f: Stream)
    ensures a + b + c + d + e + f == a + (b + c + d + e + f)
  {
  }

  lemma ScalarFieldTokens(r: R.Request)
    ensures [StructBegin("RadiusRequest")]
            + EncodeFields([Field("captureTimestamp", 1, VI32(r.captureTimestamp)),
                            Field("sourceId", 2, VI32(r.sourceId))])
            == ScalarTokens(r)
  {
    var f, g := Field("captureTimestamp", 1, VI32(r.captureTimestamp)), Field("sourceId", 2, VI32(r.sourceId));
    TwoFieldTokens(f, g);
    assert EncodeField(f) == [FieldBegin("captureTimestamp", T_I32, 1), I32(r.captureTimestamp), FieldEnd];
    assert EncodeField(g) == [FieldBegin("sourceId", T_I32, 2), I32(r.sourceId), FieldEnd];
  }

  lemma RequestTokens(r: R.Request)
    ensures R.WriteRequest(r)
            == ScalarTokens(r)
               + EncodeFields(R.ListField(r.isset.avpRequestList, "avpRequestList", 3, r.avpRequestList))
               + EncodeFields(R.ListField(r.isset.avpResponseList, "avpResponseList", 4, r.avpResponseList))
               + [FieldStop] + [StructEnd]
  {
    var scalars := [Field("captureTimestamp", 1, VI32(r.captureTimestamp)), Field("sourceId", 2, VI32(r.sourceId))];
    var third := R.ListField(r.isset.avpRequestList, "avpRequestList", 3, r.avpRequestList);
    var fourth := R.ListField(r.isset.avpResponseList, "avpResponseList", 4, r.avpResponseList);
    EncodeFieldsConcat(scalars + third, fourth);
    EncodeFieldsConcat(scalars, third);
    ScalarFieldTokens(r);
    assert R.RequestFields(r) == scalars + third + fourth;
    RegroupStruct(StructBegin("RadiusRequest"), EncodeFields(scalars), EncodeFields(third), EncodeFields(fourth));
  }

  lemma RegroupStruct(begin: Token, a: Stream, b: Stream, c: Stream)
    ensures [begin] + (a + b + c) + [FieldStop, StructEnd] == [begin] + a + b + c + [FieldStop] + [StructEnd]
  {
  }

  lemma WrittenReadsBack(r: R.Request, size: Token -> nat, rest: Stream)
    requires R.ListsFit(r)
    ensures var toks := R.WriteRequest(r) + rest;
            var res := R.ReadRequest(R.FRESH_REQUEST, toks);
            && res.Success? && res.value.1 == rest
            && R.Equal(res.value.0, r) && R.WriteRequest(res.value.0) == R.WriteRequest(r)
            && Bytes(toks, size) - Bytes(rest, size) == Bytes(R.WriteRequest(r), size)
  {
    R.RoundTrip(r, rest);
    BytesConcat(R.WriteRequest(r), rest, size);
  }

  method WrittenBy(request: RadiusRequest, size: Token -> nat) returns (wire: Stream, written: uint32)
    ensures wire == R.WriteRequest(request.Value())
    ensures written == Bytes(wire, size) % TWO32
  {
    var oprot := new TProtocol(size, []);
    written := request.Write(oprot);
    wire := oprot.output;
  }

  /** Reading into a fresh object. */
  method ReadFrom(toks: Stream, size: Token -> nat)
    returns (copy: RadiusRequest, count: Result<uint32, ProtocolError>, left: Stream)
    ensures match R.ReadRequest(R.FRESH_REQUEST, toks)
            case Success(out) =>
              && count.Success? && copy.Value() == out.0 && left == out.1
              && count.value == (Bytes(toks, size) - Bytes(left, size)) % TWO32
            case Failure(e) => count == Failure(e)
  {
    var iprot := new TProtocol(size, toks);
    copy := new RadiusRequest();
    count := copy.Read(iprot);
    left := iprot.input;
  }

  /** Writing a record whose lists fit and reading it back into a fresh object, whatever follows on the wire: an equal
      record, the written tokens consumed and no more, and both directions counting the same bytes. */
  method WriteThenRead(request: RadiusRequest, size: Token -> nat, rest: Stream)
    returns (copy: RadiusRequest, written: uint32, consumed: uint32, left: Stream)
    requires R.ListsFit(request.Value())
    ensures R.Equal(copy.Value(), request.Value())
    ensures R.WriteRequest(copy.Value()) == R.WriteRequest(request.Value())
    ensures left == rest && written == consumed == Bytes(R.WriteRequest(request.Value()), size) % TWO32
  {
    var wire;
    wire, written := WrittenBy(request, size);
    WrittenReadsBack(request.Value(), size, rest);
    var count;
    copy, count, left := ReadFrom(wire + rest, size);
    consumed := count.value;
  }
}
