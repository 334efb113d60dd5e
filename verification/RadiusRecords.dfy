/** The records sent to the logging server: their reader, their writer and their equality, on token streams. */
module RadiusRecords {
  import opened Wrappers
  import opened Integers
  import opened ThriftProtocol

  datatype Avp = Avp(kind: int8, value: string)

  datatype Isset = Isset(captureTimestamp: bool, sourceId: bool, avpRequestList: bool, avpResponseList: bool)

  datatype Request = Request(
    captureTimestamp: int32, sourceId: int32, avpRequestList: seq<Avp>, avpResponseList: seq<Avp>, isset: Isset)

  const FRESH_REQUEST: Request := Request(0, 0, [], [], Isset(false, false, false, false))

  /** The source's `operator==`: required fields by value, a list only if it is set on both sides. */
  predicate Equal(a: Request, b: Request) {
    if a.captureTimestamp != b.captureTimestamp then false
    else if a.sourceId != b.sourceId then false
    else if a.isset.avpRequestList != b.isset.avpRequestList then false
    else if a.isset.avpRequestList && a.avpRequestList != b.avpRequestList then false
    else if a.isset.avpResponseList != b.isset.avpResponseList then false
    else if a.isset.avpResponseList && a.avpResponseList != b.avpResponseList then false
    else true
  }

  /** What the comparison compares: both scalars, for each list whether it is set, and its contents when it is. */
  lemma EqualExactly(a: Request, b: Request)
    ensures Equal(a, b) <==>
            && a.captureTimestamp == b.captureTimestamp && a.sourceId == b.sourceId
            && (a.isset.avpRequestList <==> b.isset.avpRequestList)
            && (a.isset.avpResponseList <==> b.isset.avpResponseList)
            && (a.isset.avpRequestList ==> a.avpRequestList == b.avpRequestList)
            && (a.isset.avpResponseList ==> a.avpResponseList == b.avpResponseList)
    ensures Equal(a, a) && (Equal(a, b) <==> Equal(b, a))
  {
  }

  // ---- Reading ----

  /** A `RadiusAvp` while it is being read, with the reader's two local flags. */
  datatype AvpDraft = AvpDraft(avp: Avp, hasKind: bool, hasValue: bool)

  const FRESH_AVP: AvpDraft := AvpDraft(Avp(0, ""), false, false)

  predicate EndsFields(tok: Token) {
    tok.FieldStop? || (tok.FieldBegin? && tok.ftype == T_STOP)
  }

  /** The value of one field of an avp; a field with another id or another type is skipped. */
  function ReadAvpField(d: AvpDraft, fid: int16, ftype: TType, toks: Stream)
    : (r: Result<(AvpDraft, Stream), ProtocolError>)
    ensures r.Success? ==> |r.value.1| <= |toks|
  {
    if fid == 1 && ftype == T_BYTE then
      if toks != [] && toks[0].Byte? then Success((d.(avp := d.avp.(kind := toks[0].n8), hasKind := true), toks[1..]))
      else Failure(MALFORMED)
    else if fid == 2 && ftype == T_STRING then
      if toks != [] && toks[0].Str? then Success((d.(avp := d.avp.(value := toks[0].s), hasValue := true), toks[1..]))
      else Failure(MALFORMED)
    else
      var rest :- Skip(ftype, toks);
      Success((d, rest))
  }

  function ReadAvpFields(d: AvpDraft, toks: Stream): (r: Result<(AvpDraft, Stream), ProtocolError>)
    ensures r.Success? ==> |r.value.1| < |toks|
    decreases |toks|
  {
    if toks == [] then Failure(MALFORMED)
    else if EndsFields(toks[0]) then Success((d, toks[1..]))
    else if !toks[0].FieldBegin? then Failure(MALFORMED)
    else
      var (d', rest) :- ReadAvpField(d, toks[0].fid, toks[0].ftype, toks[1..]);
      var next :- Expect(rest, (k: Token) => k.FieldEnd?);
      ReadAvpFields(d', next)
  }

  /** Both fields are required: without one of them the whole avp is invalid. */
  function ReadAvp(toks: Stream): (r: Result<(Avp, Stream), ProtocolError>)
    ensures r.Success? ==> |r.value.1| < |toks|
  {
    var inside :- Expect(toks, (k: Token) => k.StructBegin?);
    var (d, rest) :- ReadAvpFields(FRESH_AVP, inside);
    var after :- Expect(rest, (k: Token) => k.StructEnd?);
    if d.hasKind && d.hasValue then Success((d.avp, after)) else Failure(INVALID_DATA)
  }

  function ReadAvps(n: nat, toks: Stream): (r: Result<(seq<Avp>, Stream), ProtocolError>)
    ensures r.Success? ==> |r.value.0| == n && |r.value.1| <= |toks|
    decreases n
  {
    if n == 0 then Success(([], toks))
    else
      var (avp, rest) :- ReadAvp(toks);
      var (avps, after) :- ReadAvps(n - 1, rest);
      Success(([avp] + avps, after))
  }

  /** The announced element type is read and ignored. */
  function ReadAvpList(toks: Stream): (r: Result<(seq<Avp>, Stream), ProtocolError>)
    ensures r.Success? ==> |r.value.1| < |toks|
  {
    if toks == [] || !toks[0].ListBegin? then Failure(MALFORMED)
    else
      var (avps, rest) :- ReadAvps(toks[0].size, toks[1..]);
      var after :- Expect(rest, (k: Token) => k.ListEnd?);
      Success((avps, after))
  }

  function ReadRequestField(r0: Request, fid: int16, ftype: TType, toks: Stream)
    : (r: Result<(Request, Stream), ProtocolError>)
    ensures r.Success? ==> |r.value.1| <= |toks|
  {
    if (fid == 1 || fid == 2) && ftype == T_I32 then
      if toks == [] || !toks[0].I32? then Failure(MALFORMED)
      else if fid == 1 then
        Success((r0.(captureTimestamp := toks[0].n32, isset := r0.isset.(captureTimestamp := true)), toks[1..]))
      else
        Success((r0.(sourceId := toks[0].n32, isset := r0.isset.(sourceId := true)), toks[1..]))
    else if (fid == 3 || fid == 4) && ftype == T_LIST then
      var (avps, rest) :- ReadAvpList(toks);
      if fid == 3 then Success((r0.(avpRequestList := avps, isset := r0.isset.(avpRequestList := true)), rest))
      else Success((r0.(avpResponseList := avps, isset := r0.isset.(avpResponseList := true)), rest))
    else
      var rest :- Skip(ftype, toks);
      Success((r0, rest))
  }

  function ReadRequestFields(r0: Request, toks: Stream): (r: Result<(Request, Stream), ProtocolError>)
    ensures r.Success? ==> |r.value.1| < |toks|
    decreases |toks|
  {
    if toks == [] then Failure(MALFORMED)
    else if EndsFields(toks[0]) then Success((r0, toks[1..]))
    else if !toks[0].FieldBegin? then Failure(MALFORMED)
    else
      var (r1, rest) :- ReadRequestField(r0, toks[0].fid, toks[0].ftype, toks[1..]);
      var next :- Expect(rest, (k: Token) => k.FieldEnd?);
      ReadRequestFields(r1, next)
  }

  /** Reads over `r0`: fields that do not occur keep their values. */
  function ReadRequest(r0: Request, toks: Stream): (r: Result<(Request, Stream), ProtocolError>)
    ensures r.Success? ==> |r.value.1| < |toks|
  {
    var inside :- Expect(toks, (k: Token) => k.StructBegin?);
    var (r1, rest) :- ReadRequestFields(r0, inside);
    var after :- Expect(rest, (k: Token) => k.StructEnd?);
    Success((r1, after))
  }

  // ---- Writing ----

  function AvpValue(a: Avp): Value {
    VStruct("RadiusAvp", [Field("type", 1, VByte(a.kind)), Field("value", 2, VStr(a.value))])
  }

  function AvpValues(avps: seq<Avp>): seq<Value> {
    seq(|avps|, i requires 0 <= i < |avps| => AvpValue(avps[i]))
  }

  function ListField(set_: bool, name: string, fid: int16, avps: seq<Avp>): seq<Field> {
    if set_ then [Field(name, fid, VList(T_STRUCT, AvpValues(avps)))] else []
  }

  /** The record as the writer lays it out: required fields always, a list only if it is set. */
  function RequestFields(r: Request): seq<Field> {
    [Field("captureTimestamp", 1, VI32(r.captureTimestamp)), Field("sourceId", 2, VI32(r.sourceId))]
    + ListField(r.isset.avpRequestList, "avpRequestList", 3, r.avpRequestList)
    + ListField(r.isset.avpResponseList, "avpResponseList", 4, r.avpResponseList)
  }

  function WriteRequest(r: Request): Stream {
    Encode(VStruct("RadiusRequest", RequestFields(r)))
  }

  // ---- What the reader makes of well-formed fields in any order ----

  function ApplyAvp(d: AvpDraft, f: Field): AvpDraft {
    if f.fid == 1 && f.value.VByte? then d.(avp := d.avp.(kind := f.value.n8), hasKind := true)
    else if f.fid == 2 && f.value.VStr? then d.(avp := d.avp.(value := f.value.s), hasValue := true)
    else d
  }

  function FoldAvp(d: AvpDraft, fields: seq<Field>): AvpDraft
    decreases |fields|
  {
    if fields == [] then d else FoldAvp(ApplyAvp(d, fields[0]), fields[1..])
  }

  /** The avp a value stands for, if it is a struct with both required fields. */
  function AvpOf(v: Value): Option<Avp> {
    if !v.VStruct? then None
    else
      var d := FoldAvp(FRESH_AVP, v.fields);
      if d.hasKind && d.hasValue then Some(d.avp) else None
  }

  function AvpsOf(elems: seq<Value>): Option<seq<Avp>> {
    if elems == [] then Some([])
    else
      match (AvpOf(elems[0]), AvpsOf(elems[1..]))
      case (Some(a), Some(as_)) => Some([a] + as_)
      case _ => None
  }

  predicate IsAvpList(f: Field) {
    (f.fid == 3 || f.fid == 4) && f.value.VList?
  }

  /** A list the reader wants must hold complete avps; every other field is read or skipped. */
  predicate Readable(f: Field) {
    IsAvpList(f) ==> AvpsOf(f.value.elems).Some?
  }

  function Apply(r: Request, f: Field): Request
    requires Readable(f)
  {
    if f.fid == 1 && f.value.VI32? then
      r.(captureTimestamp := f.value.n32, isset := r.isset.(captureTimestamp := true))
    else if f.fid == 2 && f.value.VI32? then
      r.(sourceId := f.value.n32, isset := r.isset.(sourceId := true))
    else if f.fid == 3 && f.value.VList? then
      r.(avpRequestList := AvpsOf(f.value.elems).value, isset := r.isset.(avpRequestList := true))
    else if f.fid == 4 && f.value.VList? then
      r.(avpResponseList := AvpsOf(f.value.elems).value, isset := r.isset.(avpResponseList := true))
    else r
  }

  function Fold(r: Request, fields: seq<Field>): Request
    requires forall i :: 0 <= i < |fields| ==> Readable(fields[i])
    decreases |fields|
  {
    if fields == [] then r else Fold(Apply(r, fields[0]), fields[1..])
  }

  lemma AvpFieldDenotes(d: AvpDraft, f: Field, rest: Stream)
    requires FieldWellFormed(f)
    ensures ReadAvpField(d, f.fid, TypeOf(f.value), Encode(f.value) + rest) == Success((ApplyAvp(d, f), rest))
  {
    SkipEncoded(f.value, rest);
  }

  /** Reading one written field off the front of a stream. */
  lemma AvpFieldFirst(d: AvpDraft, f: Field, fields: seq<Field>, rest: Stream)
    requires FieldWellFormed(f)
    ensures ReadAvpFields(d, EncodeFields([f] + fields) + rest)
            == ReadAvpFields(ApplyAvp(d, f), EncodeFields(fields) + rest)
  {
    var tail := EncodeFields(fields) + rest;
    EncodeFieldsCons(f, fields, rest);
    AvpFieldDenotes(d, f, [FieldEnd] + tail);
    assert ([FieldEnd] + tail)[1..] == tail;
  }

  lemma {:induction false} AvpFieldsDenote(d: AvpDraft, fields: seq<Field>, rest: Stream)
    requires AllWellFormed(fields)
    ensures ReadAvpFields(d, EncodeFields(fields) + ([FieldStop] + rest)) == Success((FoldAvp(d, fields), rest))
    decreases fields
  {
    if fields == [] {
      assert EncodeFields(fields) + ([FieldStop] + rest) == [FieldStop] + rest;
    } else {
      assert fields == [fields[0]] + fields[1..];
      AvpFieldFirst(d, fields[0], fields[1..], [FieldStop] + rest);
      AvpFieldsDenote(ApplyAvp(d, fields[0]), fields[1..], rest);
    }
  }

  /** An avp is read exactly when both of its fields occur, and then it holds the last of each. */
  lemma AvpDenotes(v: Value, rest: Stream)
    requires WellFormed(v)
    ensures var r := ReadAvp(Encode(v) + rest);
            if AvpOf(v).Some? then r == Success((AvpOf(v).value, rest)) else r.Failure?
  {
    if v.VStruct? {
      AvpFieldsDenote(FRESH_AVP, v.fields, [StructEnd] + rest);
      EncodeStruct(v.name, v.fields, rest);
    }
  }

  lemma {:induction false} AvpsDenote(t: TType, elems: seq<Value>, rest: Stream)
    requires AllOfType(t, elems)
    ensures var r := ReadAvps(|elems|, EncodeMany(elems) + rest);
            if AvpsOf(elems).Some? then r == Success((AvpsOf(elems).value, rest)) else r.Failure?
    decreases elems
  {
    if elems == [] {
      assert EncodeMany(elems) + rest == rest;
    } else {
      var tail := EncodeMany(elems[1..]) + rest;
      assert EncodeMany(elems) + rest == Encode(elems[0]) + tail;
      AvpDenotes(elems[0], tail);
      AvpsDenote(t, elems[1..], rest);
    }
  }

  lemma AvpListReads(t: TType, n: uint32, inside: Stream, avps: Result<(seq<Avp>, Stream), ProtocolError>)
    requires avps == ReadAvps(n, inside)
    ensures var r := ReadAvpList([ListBegin(t, n)] + inside);
            && (avps.Failure? ==> r.Failure?)
            && (avps.Success? && avps.value.1 != [] && avps.value.1[0].ListEnd? ==>
                  r == Success((avps.value.0, avps.value.1[1..])))
            && (avps.Success? && (avps.value.1 == [] || !avps.value.1[0].ListEnd?) ==> r.Failure?)
  {
    assert ([ListBegin(t, n)] + inside)[1..] == inside;
  }

  lemma AvpListDenotes(t: TType, elems: seq<Value>, rest: Stream)
    requires AllOfType(t, elems) && |elems| < TWO32
    ensures var r := ReadAvpList([ListBegin(t, |elems|)] + (EncodeMany(elems) + ([ListEnd] + rest)));
            if AvpsOf(elems).Some? then r == Success((AvpsOf(elems).value, rest)) else r.Failure?
  {
    var inside := EncodeMany(elems) + ([ListEnd] + rest);
    AvpsDenote(t, elems, [ListEnd] + rest);
    AvpListReads(t, |elems|, inside, ReadAvps(|elems|, inside));
    assert ([ListEnd] + rest)[1..] == rest;
  }

  lemma EncodedListReads(t: TType, elems: seq<Value>, rest: Stream)
    requires AllOfType(t, elems) && |elems| < TWO32
    ensures var r := ReadAvpList(Encode(VList(t, elems)) + rest);
            if AvpsOf(elems).Some? then r == Success((AvpsOf(elems).value, rest)) else r.Failure?
  {
    var toks := [ListBegin(t, |elems|)] + (EncodeMany(elems) + ([ListEnd] + rest));
    assert Encode(VList(t, elems)) + rest == toks by {
      EncodeList(t, elems, rest);
    }
    AvpListDenotes(t, elems, rest);
  }

  /** What the list reader returns is what the field's value becomes. */
  lemma ListFieldTakes(r: Request, f: Field, toks: Stream, rest: Stream)
    requires IsAvpList(f)
    requires var read := ReadAvpList(toks);
             if Readable(f) then read == Success((AvpsOf(f.value.elems).value, rest)) else read.Failure?
    ensures var res := ReadRequestField(r, f.fid, T_LIST, toks);
            if Readable(f) then res == Success((Apply(r, f), rest)) else res.Failure?
  {
  }

  lemma ListFieldReads(r: Request, f: Field, rest: Stream)
    requires IsAvpList(f) && WellFormed(f.value)
    ensures var res := ReadRequestField(r, f.fid, T_LIST, Encode(f.value) + rest);
            if Readable(f) then res == Success((Apply(r, f), rest)) else res.Failure?
  {
    EncodedListReads(f.value.etype, f.value.elems, rest);
    ListFieldTakes(r, f, Encode(f.value) + rest, rest);
  }

  lemma FieldDenotes(r: Request, f: Field, rest: Stream)
    requires FieldWellFormed(f)
    ensures var res := ReadRequestField(r, f.fid, TypeOf(f.value), Encode(f.value) + rest);
            if Readable(f) then res == Success((Apply(r, f), rest)) else res.Failure?
  {
    if IsAvpList(f) {
      ListFieldReads(r, f, rest);
    } else {
      SkipEncoded(f.value, rest);
    }
  }

  /** Reading one written field off the front of a stream. */
  lemma FieldFirst(r: Request, f: Field, fields: seq<Field>, rest: Stream)
    requires FieldWellFormed(f)
    ensures var res := ReadRequestFields(r, EncodeFields([f] + fields) + rest);
            if Readable(f) then res == ReadRequestFields(Apply(r, f), EncodeFields(fields) + rest) else res.Failure?
  {
    var tail := EncodeFields(fields) + rest;
    EncodeFieldsCons(f, fields, rest);
    FieldDenotes(r, f, [FieldEnd] + tail);
    assert ([FieldEnd] + tail)[1..] == tail;
  }

  predicate AllReadable(fields: seq<Field>) {
    forall i :: 0 <= i < |fields| ==> Readable(fields[i])
  }

  /** Readable fields, whatever follows them, amount to their fold; one unreadable field fails the read. */
  lemma {:induction false} FieldsDenote(r: Request, fields: seq<Field>, rest: Stream)
    requires AllWellFormed(fields)
    ensures var res := ReadRequestFields(r, EncodeFields(fields) + rest);
            if AllReadable(fields) then res == ReadRequestFields(Fold(r, fields), rest) else res.Failure?
    decreases fields
  {
    if fields == [] {
      assert EncodeFields(fields) + rest == rest;
    } else {
      var f, more := fields[0], fields[1..];
      assert fields == [f] + more;
      FieldFirst(r, f, more, rest);
      if Readable(f) {
        FieldsDenote(Apply(r, f), more, rest);
        assert AllReadable(fields) <==> AllReadable(more);
      }
    }
  }

  /** Reading a well-formed struct succeeds exactly when its avp lists are complete, and gives the fold of its
      fields in the order they occur. */
  lemma RequestDenotes(r: Request, name: string, fields: seq<Field>, rest: Stream)
    requires AllWellFormed(fields)
    ensures var res := ReadRequest(r, Encode(VStruct(name, fields)) + rest);
            if AllReadable(fields) then res == Success((Fold(r, fields), rest)) else res.Failure?
  {
    var tail := [FieldStop] + ([StructEnd] + rest);
    FieldsDenote(r, fields, tail);
    EncodeStruct(name, fields, rest);
    assert tail[1..] == [StructEnd] + rest;
  }

  // ---- The last occurrence wins ----

  /** The value of the last byte field with id 1. */
  function LastKind(fields: seq<Field>): Option<int8> {
    if fields == [] then None
    else
      var f := fields[|fields| - 1];
      if f.fid == 1 && f.value.VByte? then Some(f.value.n8) else LastKind(fields[..|fields| - 1])
  }

  /** The value of the last string field with id 2. */
  function LastText(fields: seq<Field>): Option<string> {
    if fields == [] then None
    else
      var f := fields[|fields| - 1];
      if f.fid == 2 && f.value.VStr? then Some(f.value.s) else LastText(fields[..|fields| - 1])
  }

  lemma {:induction false} FoldAvpSnoc(d: AvpDraft, fields: seq<Field>, f: Field)
    ensures FoldAvp(d, fields + [f]) == ApplyAvp(FoldAvp(d, fields), f)
    decreases |fields|
  {
    if fields == [] {
      assert [] + [f] == [f];
    } else {
      assert (fields + [f])[1..] == fields[1..] + [f];
      FoldAvpSnoc(ApplyAvp(d, fields[0]), fields[1..], f);
    }
  }

  lemma {:induction false} FoldAvpKeepsLast(d: AvpDraft, fields: seq<Field>)
    ensures FoldAvp(d, fields) == AvpDraft(
              Avp(if LastKind(fields).Some? then LastKind(fields).value else d.avp.kind,
                  if LastText(fields).Some? then LastText(fields).value else d.avp.value),
              d.hasKind || LastKind(fields).Some?, d.hasValue || LastText(fields).Some?)
    decreases |fields|
  {
    if fields != [] {
      var n := |fields| - 1;
      FoldAvpKeepsLast(d, fields[..n]);
      FoldAvpSnoc(d, fields[..n], fields[n]);
      assert fields == fields[..n] + [fields[n]];
    }
  }

  /** On a well-formed struct the avp reader succeeds exactly when a byte field 1 and a string field 2 occur, and
      returns the last of each. */
  lemma AvpReadsLastOfEach(name: string, fields: seq<Field>, rest: Stream)
    requires AllWellFormed(fields)
    ensures ReadAvp(Encode(VStruct(name, fields)) + rest)
            == match (LastKind(fields), LastText(fields))
               case (Some(kind), Some(text)) => Success((Avp(kind, text), rest))
               case _ => Failure(INVALID_DATA)
  {
    FoldAvpKeepsLast(FRESH_AVP, fields);
    AvpFieldsDenote(FRESH_AVP, fields, [StructEnd] + rest);
    EncodeStruct(name, fields, rest);
  }

  // ---- Fields in any order, and fields nobody knows ----

  /** Which part of the record a field sets; 0 for a field the reader skips. */
  function Slot(f: Field): int {
    if (f.fid == 1 || f.fid == 2) && f.value.VI32? then f.fid
    else if IsAvpList(f) then f.fid
    else 0
  }

  /** The two records agree on one slot: its value and its flag. */
  predicate SameSlot(slot: int, a: Request, b: Request) {
    match slot
    case 1 => a.captureTimestamp == b.captureTimestamp && a.isset.captureTimestamp == b.isset.captureTimestamp
    case 2 => a.sourceId == b.sourceId && a.isset.sourceId == b.isset.sourceId
    case 3 => a.avpRequestList == b.avpRequestList && a.isset.avpRequestList == b.isset.avpRequestList
    case 4 => a.avpResponseList == b.avpResponseList && a.isset.avpResponseList == b.isset.avpResponseList
    case _ => true
  }

  lemma ApplySlots(r: Request, f: Field, slot: int)
    requires Readable(f) && 1 <= slot <= 4
    ensures slot != Slot(f) ==> SameSlot(slot, Apply(r, f), r)
    ensures slot == Slot(f) ==> forall q: Request :: SameSlot(slot, Apply(r, f), Apply(q, f))
  {
  }

  lemma {:induction false} UntouchedSlot(r: Request, fields: seq<Field>, slot: int)
    requires AllReadable(fields) && 1 <= slot <= 4
    requires forall i :: 0 <= i < |fields| ==> Slot(fields[i]) != slot
    ensures SameSlot(slot, Fold(r, fields), r)
    decreases |fields|
  {
    if fields != [] {
      ApplySlots(r, fields[0], slot);
      UntouchedSlot(Apply(r, fields[0]), fields[1..], slot);
    }
  }

  /** When every field of a slot is the same field, the fold sets the slot from it, wherever it stands. */
  lemma {:induction false} SlotIsSet(r: Request, fields: seq<Field>, f: Field)
    requires AllReadable(fields) && f in fields && Slot(f) != 0
    requires forall i :: 0 <= i < |fields| && Slot(fields[i]) == Slot(f) ==> fields[i] == f
    ensures SameSlot(Slot(f), Fold(r, fields), Apply(r, f))
    decreases |fields|
  {
    var r1, more := Apply(r, fields[0]), fields[1..];
    ApplySlots(r, fields[0], Slot(f));
    ApplySlots(r, f, Slot(f));
    if f in more {
      SlotIsSet(r1, more, f);
      assert SameSlot(Slot(f), Apply(r1, f), Apply(r, f));
    } else {
      assert fields[0] == f;
      forall i | 0 <= i < |more|
        ensures Slot(more[i]) != Slot(f)
      {
        assert more[i] == fields[i + 1] && more[i] in more;
      }
      UntouchedSlot(r1, more, Slot(f));
    }
  }

  /** Each part of the record is set by at most one distinct field. */
  ghost predicate Unambiguous(fields: seq<Field>) {
    forall i, j :: 0 <= i < |fields| && 0 <= j < |fields| && Slot(fields[i]) == Slot(fields[j]) != 0 ==>
      fields[i] == fields[j]
  }

  lemma SameElements(a: seq<Field>, b: seq<Field>)
    requires multiset(a) == multiset(b)
    ensures forall f :: f in a <==> f in b
    ensures Unambiguous(a) ==> Unambiguous(b)
    ensures AllReadable(a) ==> AllReadable(b)
  {
    assert forall f :: f in a <==> f in multiset(a);
    assert forall f :: f in b <==> f in multiset(b);
    forall i | 0 <= i < |b|
      ensures exists k :: 0 <= k < |a| && a[k] == b[i]
    {
      assert b[i] in b;
    }
  }

  lemma SlotOrderIrrelevant(r: Request, a: seq<Field>, b: seq<Field>, slot: int)
    requires AllReadable(a) && AllReadable(b) && 1 <= slot <= 4
    requires Unambiguous(a) && Unambiguous(b)
    requires forall f :: f in a <==> f in b
    ensures SameSlot(slot, Fold(r, a), Fold(r, b))
  {
    if f :| f in a && Slot(f) == slot {
      SlotIsSet(r, a, f);
      SlotIsSet(r, b, f);
    } else {
      forall i | 0 <= i < |a| ensures Slot(a[i]) != slot { assert a[i] in a; }
      forall i | 0 <= i < |b| ensures Slot(b[i]) != slot { assert b[i] in b; }
      UntouchedSlot(r, a, slot);
      UntouchedSlot(r, b, slot);
    }
  }

  /** Permuting the fields of a record in which no part is set twice never changes the value read. */
  lemma FieldOrderIrrelevant(r: Request, name: string, a: seq<Field>, b: seq<Field>, rest: Stream)
    requires AllWellFormed(a) && AllWellFormed(b)
    requires multiset(a) == multiset(b) && Unambiguous(a)
    ensures var ra := ReadRequest(r, Encode(VStruct(name, a)) + rest);
            var rb := ReadRequest(r, Encode(VStruct(name, b)) + rest);
            ra == rb || (ra.Failure? && rb.Failure?)
  {
    RequestDenotes(r, name, a, rest);
    RequestDenotes(r, name, b, rest);
    SameElements(a, b);
    SameElements(b, a);
    if AllReadable(a) {
      SlotOrderIrrelevant(r, a, b, 1);
      SlotOrderIrrelevant(r, a, b, 2);
      SlotOrderIrrelevant(r, a, b, 3);
      SlotOrderIrrelevant(r, a, b, 4);
    }
  }

  lemma ReadableSkips(a: seq<Field>, f: Field, b: seq<Field>)
    requires Slot(f) == 0
    ensures AllReadable(a + [f] + b) <==> AllReadable(a + b)
  {
    var all, without := a + [f] + b, a + b;
    assert forall i :: 0 <= i < |without| ==> without[i] == all[if i < |a| then i else i + 1];
    assert forall i :: 0 <= i < |all| && i != |a| ==> all[i] == without[if i < |a| then i else i - 1];
    assert Readable(all[|a|]);
  }

  lemma {:induction false} FoldSkips(r: Request, a: seq<Field>, f: Field, b: seq<Field>)
    requires Slot(f) == 0 && AllReadable(a + b) && AllReadable(a + [f] + b)
    ensures Fold(r, a + [f] + b) == Fold(r, a + b)
    decreases |a|
  {
    var all, without := a + [f] + b, a + b;
    if a == [] {
      assert all == [f] + b && all[1..] == b && without == b;
    } else {
      assert all[1..] == a[1..] + [f] + b && without[1..] == a[1..] + b;
      assert without[0] == a[0] == all[0];
      FoldSkips(Apply(r, a[0]), a[1..], f, b);
    }
  }

  lemma {:induction false} AllWellFormedConcat(a: seq<Field>, b: seq<Field>)
    ensures AllWellFormed(a + b) <==> AllWellFormed(a) && AllWellFormed(b)
    decreases |a|
  {
    if a == [] {
      assert a + b == b;
    } else {
      assert (a + b)[1..] == a[1..] + b;
      AllWellFormedConcat(a[1..], b);
    }
  }

  /** A well-formed field with an unknown id or an unexpected type may stand anywhere before the stop marker. */
  lemma {:induction false} UnknownFieldIgnored(r: Request, name: string, a: seq<Field>, f: Field, b: seq<Field>,
                                               rest: Stream)
    requires AllWellFormed(a + b) && FieldWellFormed(f) && Slot(f) == 0
    ensures var with_ := ReadRequest(r, Encode(VStruct(name, a + [f] + b)) + rest);
            var without := ReadRequest(r, Encode(VStruct(name, a + b)) + rest);
            with_ == without || (with_.Failure? && without.Failure?)
  {
    AllWellFormedConcat(a, b);
    AllWellFormedConcat([f], b);
    AllWellFormedConcat(a, [f] + b);
    assert a + ([f] + b) == a + [f] + b;
    RequestDenotes(r, name, a + b, rest);
    RequestDenotes(r, name, a + [f] + b, rest);
    ReadableSkips(a, f, b);
    if AllReadable(a + b) {
      FoldSkips(r, a, f, b);
    }
  }

  // ---- Round trip ----

  /** The lists that are written can be announced in 32 bits. */
  predicate ListsFit(r: Request) {
    && (r.isset.avpRequestList ==> |r.avpRequestList| < TWO32)
    && (r.isset.avpResponseList ==> |r.avpResponseList| < TWO32)
  }

  lemma AvpValueDenotes(a: Avp)
    ensures WellFormed(AvpValue(a)) && AvpOf(AvpValue(a)) == Some(a)
  {
    var f, g := Field("type", 1, VByte(a.kind)), Field("value", 2, VStr(a.value));
    assert AvpValue(a).fields == [f, g];
    assert [f, g][1..] == [g] && [g][1..] == [];
    OneField(FRESH_REQUEST, f);
    OneField(FRESH_REQUEST, g);
    AllWellFormedConcat([f], [g]);
    assert [f, g] == [f] + [g];
    var d1 := ApplyAvp(FRESH_AVP, f);
    assert FoldAvp(d1, [g]) == FoldAvp(ApplyAvp(d1, g), []);
    assert FoldAvp(FRESH_AVP, [f, g]) == ApplyAvp(d1, g);
  }

  lemma {:induction false} AvpValuesDenote(avps: seq<Avp>)
    ensures AllOfType(T_STRUCT, AvpValues(avps))
    ensures AvpsOf(AvpValues(avps)) == Some(avps)
    decreases |avps|
  {
    if avps != [] {
      AvpValueDenotes(avps[0]);
      assert AvpValues(avps)[1..] == AvpValues(avps[1..]);
      AvpValuesDenote(avps[1..]);
      assert avps == [avps[0]] + avps[1..];
    }
  }

  /** What reading back a written record must give: unset lists come out empty, all that was read is marked as set. */
  function Canonical(r: Request): Request {
    Request(r.captureTimestamp, r.sourceId,
            if r.isset.avpRequestList then r.avpRequestList else [],
            if r.isset.avpResponseList then r.avpResponseList else [],
            r.isset.(captureTimestamp := true, sourceId := true))
  }

  lemma OneField(r: Request, f: Field)
    ensures AllWellFormed([f]) <==> FieldWellFormed(f)
    ensures Readable(f) ==> AllReadable([f]) && Fold(r, [f]) == Apply(r, f)
  {
    assert [f][1..] == [];
  }

  lemma ListFieldDenotes(set_: bool, name: string, fid: int16, avps: seq<Avp>)
    requires set_ ==> |avps| < TWO32
    ensures var fs := ListField(set_, name, fid, avps); AllWellFormed(fs) && AllReadable(fs)
  {
    if set_ {
      AvpValuesDenote(avps);
      OneField(FRESH_REQUEST, Field(name, fid, VList(T_STRUCT, AvpValues(avps))));
    }
  }

  lemma {:induction false} FoldConcat(r: Request, a: seq<Field>, b: seq<Field>)
    requires AllReadable(a) && AllReadable(b)
    ensures AllReadable(a + b) && Fold(r, a + b) == Fold(Fold(r, a), b)
    decreases |a|
  {
    if a == [] {
      assert a + b == b;
    } else {
      assert (a + b)[1..] == a[1..] + b;
      FoldConcat(Apply(r, a[0]), a[1..], b);
    }
  }

  lemma ScalarFieldsFold(r: Request)
    ensures var scalars := [Field("captureTimestamp", 1, VI32(r.captureTimestamp)),
                            Field("sourceId", 2, VI32(r.sourceId))];
            && AllReadable(scalars) && AllWellFormed(scalars)
            && Fold(FRESH_REQUEST, scalars)
               == FRESH_REQUEST.(captureTimestamp := r.captureTimestamp, sourceId := r.sourceId,
                                 isset := Isset(true, true, false, false))
  {
    var f, g := Field("captureTimestamp", 1, VI32(r.captureTimestamp)), Field("sourceId", 2, VI32(r.sourceId));
    assert [f, g] == [f] + [g];
    AllWellFormedConcat([f], [g]);
    OneField(FRESH_REQUEST, f);
    OneField(Apply(FRESH_REQUEST, f), g);
    FoldConcat(FRESH_REQUEST, [f], [g]);
  }

  lemma ListFieldFolds(q: Request, set_: bool, name: string, fid: int16, avps: seq<Avp>)
    requires set_ ==> |avps| < TWO32
    requires fid == 3 || fid == 4
    ensures var fs := ListField(set_, name, fid, avps);
            && AllReadable(fs)
            && Fold(q, fs) == (if !set_ then q
                               else if fid == 3 then
                                 q.(avpRequestList := avps, isset := q.isset.(avpRequestList := true))
                               else q.(avpResponseList := avps, isset := q.isset.(avpResponseList := true)))
  {
    if set_ {
      AvpValuesDenote(avps);
      OneField(q, Field(name, fid, VList(T_STRUCT, AvpValues(avps))));
    }
  }

  /** The written fields are well-formed and fold, over a fresh record, to the record's canonical form. */
  lemma RequestFieldsDenote(r: Request)
    requires ListsFit(r)
    ensures var fs := RequestFields(r);
            AllWellFormed(fs) && AllReadable(fs) && Fold(FRESH_REQUEST, fs) == Canonical(r)
  {
    var scalars := [Field("captureTimestamp", 1, VI32(r.captureTimestamp)), Field("sourceId", 2, VI32(r.sourceId))];
    var third := ListField(r.isset.avpRequestList, "avpRequestList", 3, r.avpRequestList);
    var fourth := ListField(r.isset.avpResponseList, "avpResponseList", 4, r.avpResponseList);
    ScalarFieldsFold(r);
    ListFieldDenotes(r.isset.avpRequestList, "avpRequestList", 3, r.avpRequestList);
    ListFieldDenotes(r.isset.avpResponseList, "avpResponseList", 4, r.avpResponseList);
    ListFieldFolds(Fold(FRESH_REQUEST, scalars), r.isset.avpRequestList, "avpRequestList", 3, r.avpRequestList);
    ListFieldFolds(Fold(Fold(FRESH_REQUEST, scalars), third), r.isset.avpResponseList, "avpResponseList", 4,
                   r.avpResponseList);
    AllWellFormedConcat(scalars, third);
    AllWellFormedConcat(scalars + third, fourth);
    FoldConcat(FRESH_REQUEST, scalars, third);
    FoldConcat(FRESH_REQUEST, scalars + third, fourth);
  }

  /** Canonical form keeps equality and the written stream, for every combination of the list flags. */
  lemma CanonicalIsFaithful(r: Request)
    ensures Equal(Canonical(r), r) && WriteRequest(Canonical(r)) == WriteRequest(r)
  {
    assert RequestFields(Canonical(r)) == RequestFields(r);
  }

  /** Reading what was written, followed by anything, into a fresh record gives an equal record and stops exactly
      behind the written tokens; writing that record again emits the same stream. */
  lemma RoundTrip(r: Request, rest: Stream)
    requires ListsFit(r)
    ensures var res := ReadRequest(FRESH_REQUEST, WriteRequest(r) + rest);
            && res.Success? && res.value.1 == rest
            && Equal(res.value.0, r)
            && WriteRequest(res.value.0) == WriteRequest(r)
  {
    RequestFieldsDenote(r);
    RequestDenotes(FRESH_REQUEST, "RadiusRequest", RequestFields(r), rest);
    CanonicalIsFaithful(r);
  }

  // ---- Lists too long for their announcement ----

  lemma SplitAvps(avps: seq<Avp>, n: nat, rest: Stream)
    requires n < |avps|
    ensures var left := EncodeMany(AvpValues(avps[n..])) + rest;
            && EncodeMany(AvpValues(avps)) + rest == EncodeMany(AvpValues(avps[..n])) + left
            && left != [] && left[0].StructBegin?
  {
    assert AvpValues(avps) == AvpValues(avps[..n]) + AvpValues(avps[n..]);
    EncodeManyConcat(AvpValues(avps[..n]), AvpValues(avps[n..]));
  }

  /** Reading fewer elements than were written stops in front of the next one. */
  lemma ShortReadFails(avps: seq<Avp>, n: uint32, rest: Stream)
    requires n < |avps|
    ensures ReadAvpList([ListBegin(T_STRUCT, n)] + (EncodeMany(AvpValues(avps)) + rest)).Failure?
  {
    var front := AvpValues(avps[..n]);
    var left := EncodeMany(AvpValues(avps[n..])) + rest;
    var inside := EncodeMany(AvpValues(avps)) + rest;
    AvpValuesDenote(avps[..n]);
    SplitAvps(avps, n, rest);
    AvpsDenote(T_STRUCT, front, left);
    AvpListReads(T_STRUCT, n, inside, ReadAvps(n, inside));
  }

  lemma OversizedListFails(avps: seq<Avp>, rest: Stream)
    requires |avps| >= TWO32
    ensures ReadAvpList(Encode(VList(T_STRUCT, AvpValues(avps))) + rest).Failure?
  {
    var vs, n := AvpValues(avps), Size32(|avps|);
    ShortReadFails(avps, n, [ListEnd] + rest);
    EncodeList(T_STRUCT, vs, rest);
  }

  /** A list field that does not fit fails the read of the whole record. */
  lemma OversizedFieldFails(r: Request, name: string, fid: int16, avps: seq<Avp>, more: seq<Field>, rest: Stream)
    requires |avps| >= TWO32 && (fid == 3 || fid == 4)
    ensures ReadRequestFields(r, EncodeFields(ListField(true, name, fid, avps) + more) + rest).Failure?
  {
    var f := Field(name, fid, VList(T_STRUCT, AvpValues(avps)));
    var tail := EncodeFields(more) + rest;
    EncodeFieldsCons(f, more, rest);
    OversizedListFails(avps, [FieldEnd] + tail);
  }

  /** The round trip works exactly for the records whose lists fit. */
  lemma RoundTripExactly(r: Request, rest: Stream)
    ensures var res := ReadRequest(FRESH_REQUEST, WriteRequest(r) + rest);
            (res.Success? && res.value.1 == rest && Equal(res.value.0, r)) <==> ListsFit(r)
  {
    if ListsFit(r) {
      RoundTrip(r, rest);
    } else {
      var scalars := [Field("captureTimestamp", 1, VI32(r.captureTimestamp)), Field("sourceId", 2, VI32(r.sourceId))];
      var third := ListField(r.isset.avpRequestList, "avpRequestList", 3, r.avpRequestList);
      var fourth := ListField(r.isset.avpResponseList, "avpResponseList", 4, r.avpResponseList);
      var tail := [FieldStop] + ([StructEnd] + rest);
      var thirdFits := r.isset.avpRequestList ==> |r.avpRequestList| < TWO32;
      var fine := if thirdFits then scalars + third else scalars;
      var bad := if thirdFits then fourth else third + fourth;
      ScalarFieldsFold(r);
      if thirdFits {
        ListFieldDenotes(r.isset.avpRequestList, "avpRequestList", 3, r.avpRequestList);
        AllWellFormedConcat(scalars, third);
        FoldConcat(FRESH_REQUEST, scalars, third);
        assert fourth == fourth + [];
        OversizedFieldFails(Fold(FRESH_REQUEST, fine), "avpResponseList", 4, r.avpResponseList, [], tail);
      } else {
        OversizedFieldFails(Fold(FRESH_REQUEST, fine), "avpRequestList", 3, r.avpRequestList, fourth, tail);
      }
      assert RequestFields(r) == fine + bad;
      ReadFailsInside("RadiusRequest", fine, bad, rest);
    }
  }

  /** A list of 2^32 elements is announced as empty, and the record that holds it cannot be read back. */
  lemma OversizedListIsLost(r: Request, rest: Stream)
    requires r.isset.avpRequestList && |r.avpRequestList| == TWO32
    ensures Size32(|r.avpRequestList|) == 0
    ensures var res := ReadRequest(FRESH_REQUEST, WriteRequest(r) + rest);
            !(res.Success? && res.value.1 == rest && Equal(res.value.0, r))
  {
    RoundTripExactly(r, rest);
  }

  lemma ReadFailsAfterBegin(name: string, inside: Stream)
    requires ReadRequestFields(FRESH_REQUEST, inside).Failure?
    ensures ReadRequest(FRESH_REQUEST, [StructBegin(name)] + inside).Failure?
  {
    assert ([StructBegin(name)] + inside)[1..] == inside;
  }

  lemma EncodeStructConcat(name: string, fine: seq<Field>, bad: seq<Field>, rest: Stream)
    ensures var tail := [FieldStop] + ([StructEnd] + rest);
            Encode(VStruct(name, fine + bad)) + rest
            == [StructBegin(name)] + (EncodeFields(fine) + (EncodeFields(bad) + tail))
  {
    var tail := [FieldStop] + ([StructEnd] + rest);
    EncodeStruct(name, fine + bad, rest);
    EncodeFieldsConcat(fine, bad);
    assert (EncodeFields(fine) + EncodeFields(bad)) + tail == EncodeFields(fine) + (EncodeFields(bad) + tail);
  }

  lemma ReadFailsInside(name: string, fine: seq<Field>, bad: seq<Field>, rest: Stream)
    requires AllWellFormed(fine) && AllReadable(fine)
    requires var after := EncodeFields(bad) + ([FieldStop] + ([StructEnd] + rest));
             ReadRequestFields(Fold(FRESH_REQUEST, fine), after).Failure?
    ensures ReadRequest(FRESH_REQUEST, Encode(VStruct(name, fine + bad)) + rest).Failure?
  {
    var after := EncodeFields(bad) + ([FieldStop] + ([StructEnd] + rest));
    EncodeStructConcat(name, fine, bad, rest);
    FieldsDenote(FRESH_REQUEST, fine, after);
    ReadFailsAfterBegin(name, EncodeFields(fine) + after);
  }
}
