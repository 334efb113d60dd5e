/** From a reported pair of messages to the record on the wire, and back to the messages' attributes. */
module ThriftResultLoggers {
  import opened Integers
  import opened ThriftProtocol
  import R = RadiusRecords
  import IO = RadiusRecordIO
  import RM = RadiusMessages

  type Attributes = map<int16, string>

  // ---- The order of a std::map ----

  lemma LeastExists(keys: set<int16>)
    requires keys != {}
    ensures exists k: int16 :: k in keys && forall j <- keys :: k <= j
  {
    var k :| k in keys;
    var rest := keys - {k};
    if rest != {} {
      LeastExists(rest);
      var l: int16 :| l in rest && forall j <- rest :: l <= j;
      var least: int16 := if k <= l then k else l;
      assert least in keys;
      forall j <- keys
        ensures least <= j
      {
        assert j == k || j in rest;
      }
    } else {
      assert forall j <- keys :: j == k || j in rest;
    }
  }

  ghost function Least(keys: set<int16>): (k: int16)
    requires keys != {}
    ensures k in keys && forall j <- keys :: k <= j
  {
    LeastExists(keys);
    var k: int16 :| k in keys && forall j <- keys :: k <= j;
    k
  }

  /** The keys in the order a map iterates over them. */
  ghost function InOrder(keys: set<int16>): seq<int16> {
    if keys == {} then [] else [Least(keys)] + InOrder(keys - {Least(keys)})
  }

  /** Iteration is in ascending key order and visits each key once and nothing else. */
  lemma {:induction false} InOrderAscends(keys: set<int16>)
    ensures var ks := InOrder(keys);
            && |ks| == |keys|
            && (forall i, j :: 0 <= i < j < |ks| ==> ks[i] < ks[j])
            && (forall i :: 0 <= i < |ks| ==> ks[i] in keys)
            && (forall k <- keys :: k in ks)
  {
    if keys != {} {
      var least, rest := Least(keys), keys - {Least(keys)};
      InOrderAscends(rest);
      LeastFirst(keys, least, InOrder(rest));
    }
  }

  lemma LeastFirst(keys: set<int16>, least: int16, ks: seq<int16>)
    requires least in keys && forall k <- keys :: least <= k
    requires |ks| == |keys - {least}|
    requires forall i, j :: 0 <= i < j < |ks| ==> ks[i] < ks[j]
    requires forall i :: 0 <= i < |ks| ==> ks[i] in keys - {least}
    requires forall k <- keys - {least} :: k in ks
    ensures var all := [least] + ks;
            && |all| == |keys|
            && (forall i, j :: 0 <= i < j < |all| ==> all[i] < all[j])
            && (forall i :: 0 <= i < |all| ==> all[i] in keys)
            && (forall k <- keys :: k in all)
  {
  }

  // ---- Lists of avps ----

  /** The avps of some keys; the type of an avp is a signed byte, so the key is narrowed. */
  function AvpsFor(attrs: Attributes, ks: seq<int16>): seq<R.Avp>
    requires forall i :: 0 <= i < |ks| ==> ks[i] in attrs
  {
    if ks == [] then [] else [R.Avp(NarrowTo8(ks[0]), attrs[ks[0]])] + AvpsFor(attrs, ks[1..])
  }

  ghost function AvpList(attrs: Attributes): seq<R.Avp> {
    InOrderAscends(attrs.Keys);
    AvpsFor(attrs, InOrder(attrs.Keys))
  }

  /** The avps of the keys that are still to be visited. */
  ghost function AvpsLeft(attrs: Attributes, left: set<int16>): seq<R.Avp>
    requires left <= attrs.Keys
  {
    InOrderAscends(left);
    AvpsFor(attrs, InOrder(left))
  }

  lemma NextAvp(attrs: Attributes, left: set<int16>, k: int16)
    requires left <= attrs.Keys && k in left && forall j <- left :: k <= j
    ensures AvpsLeft(attrs, left) == [R.Avp(NarrowTo8(k), attrs[k])] + AvpsLeft(attrs, left - {k})
  {
    assert k == Least(left);
    assert InOrder(left)[1..] == InOrder(left - {k});
  }

  /** `mapToAvpList`: one avp per map entry, in ascending key order, appended to what `dst` held. */
  method MapToAvpList(src: Attributes, dst: seq<R.Avp>) returns (out: seq<R.Avp>)
    ensures out == dst + AvpList(src)
  {
    out := dst;
    var left := src.Keys;
    while left != {}
      invariant left <= src.Keys
      invariant out + AvpsLeft(src, left) == dst + AvpList(src)
    {
      LeastExists(left);
      var k: int16 :| k in left && forall j <- left :: k <= j;
      NextAvp(src, left, k);
      var avp := R.Avp(NarrowTo8(k), src[k]);
      ghost var rest := AvpsLeft(src, left - {k});
      assert out + ([avp] + rest) == (out + [avp]) + rest;
      out := out + [avp];
      left := left - {k};
    }
    assert out + [] == out;
  }

  // ---- Reading the attributes back ----

  /** The attribute type as the octet it was before it became a signed byte. */
  function Octet(kind: int8): byte {
    kind % 0x100
  }

  /** The narrowing loses nothing on octets. */
  lemma NarrowingIsInjectiveOnOctets(a: byte, b: byte)
    ensures Octet(NarrowTo8(a)) == a
    ensures NarrowTo8(a) == NarrowTo8(b) ==> a == b
  {
  }

  /** The attribute map an avp list stands for; a later avp overwrites an earlier one of the same type. */
  function Recover(avps: seq<R.Avp>): Attributes {
    if avps == [] then map[]
    else Recover(avps[..|avps| - 1])[Octet(avps[|avps| - 1].kind) := avps[|avps| - 1].value]
  }

  lemma {:induction false} AvpsForSnoc(attrs: Attributes, ks: seq<int16>, k: int16)
    requires k in attrs && forall i :: 0 <= i < |ks| ==> ks[i] in attrs
    ensures AvpsFor(attrs, ks + [k]) == AvpsFor(attrs, ks) + [R.Avp(NarrowTo8(k), attrs[k])]
    decreases |ks|
  {
    if ks == [] {
      assert [] + [k] == [k];
    } else {
      assert (ks + [k])[1..] == ks[1..] + [k];
      AvpsForSnoc(attrs, ks[1..], k);
    }
  }

  lemma {:induction false} RecoveredTypesAreOctets(avps: seq<R.Avp>, k: int16)
    requires k in Recover(avps)
    ensures 0 <= k < 0x100
    decreases |avps|
  {
    var n := |avps| - 1;
    if k != Octet(avps[n].kind) {
      RecoveredTypesAreOctets(avps[..n], k);
    }
  }

  lemma {:induction false} RecoverOctets(attrs: Attributes, ks: seq<int16>)
    requires forall i :: 0 <= i < |ks| ==> ks[i] in attrs && 0 <= ks[i] < 0x100
    ensures var m := Recover(AvpsFor(attrs, ks));
            && (forall k: int16 :: k in m <==> k in ks)
            && (forall k <- m :: k in attrs && m[k] == attrs[k])
    decreases |ks|
  {
    if ks != [] {
      var n := |ks| - 1;
      assert ks == ks[..n] + [ks[n]];
      RecoverOctets(attrs, ks[..n]);
      AvpsForSnoc(attrs, ks[..n], ks[n]);
      var avps, front := AvpsFor(attrs, ks), AvpsFor(attrs, ks[..n]);
      assert avps[..|avps| - 1] == front;
      NarrowingIsInjectiveOnOctets(ks[n], ks[n]);
      assert Recover(avps) == Recover(front)[ks[n] := attrs[ks[n]]];
    }
  }

  predicate TypesAreOctets(attrs: Attributes) {
    forall k <- attrs :: 0 <= k < 0x100
  }

  /** The avp list of an attribute map gives the map back exactly when its attribute types are octets. */
  lemma RecoverExactly(attrs: Attributes)
    ensures Recover(AvpList(attrs)) == attrs <==> TypesAreOctets(attrs)
  {
    var ks := InOrder(attrs.Keys);
    InOrderAscends(attrs.Keys);
    if TypesAreOctets(attrs) {
      RecoverOctets(attrs, ks);
      SameMap(Recover(AvpsFor(attrs, ks)), attrs, ks);
    } else {
      var k :| k in attrs && !(0 <= k < 0x100);
      if k in Recover(AvpList(attrs)) {
        RecoveredTypesAreOctets(AvpList(attrs), k);
      }
    }
  }

  /** A negative type comes back as another one: -1 as 255. */
  lemma NegativeTypeIsLost(value: string)
    ensures Recover(AvpList(map[-1 := value])) != map[-1 := value]
    ensures Octet(NarrowTo8(-1)) == 255
  {
    var attrs: Attributes := map[-1 := value];
    RecoverExactly(attrs);
    assert -1 in attrs;
  }

  lemma SameMap(m: Attributes, attrs: Attributes, ks: seq<int16>)
    requires forall k: int16 :: k in m <==> k in ks
    requires forall k: int16 :: k in ks <==> k in attrs
    requires forall k <- m :: k in attrs && m[k] == attrs[k]
    ensures m == attrs
  {
    assert m.Keys == attrs.Keys;
  }

  lemma {:induction false} AvpsForLength(attrs: Attributes, ks: seq<int16>)
    requires forall i :: 0 <= i < |ks| ==> ks[i] in attrs
    ensures |AvpsFor(attrs, ks)| == |ks|
    decreases |ks|
  {
    if ks != [] {
      AvpsForLength(attrs, ks[1..]);
    }
  }

  lemma {:induction false} SmallKeySet(keys: set<int16>, bound: int)
    requires -0x8000 <= bound && forall k <- keys :: k < bound
    ensures |keys| <= bound + 0x8000
    decreases bound + 0x8000
  {
    if bound > -0x8000 {
      SmallKeySet(keys - {bound - 1}, bound - 1);
    } else if k :| k in keys {
      assert false;
    }
  }

  // ---- The record of a reported pair ----

  function RecordOf(appId: uint32, time: int, request: seq<R.Avp>, response: seq<R.Avp>): R.Request {
    R.Request(NarrowTo32(time), NarrowTo32(appId), request, response, R.Isset(false, false, true, true))
  }

  /** The record `reportPair` sends: both lists set, the application id and the time narrowed to 32 bits. */
  method BuildRecord(appId: uint32, time: int, req: Attributes, rsp: Attributes) returns (record: IO.RadiusRequest)
    ensures fresh(record)
    ensures record.Value() == RecordOf(appId, time, AvpList(req), AvpList(rsp))
    ensures record.avpRequestList == AvpList(req) && record.isset.avpRequestList
    ensures record.avpResponseList == AvpList(rsp) && record.isset.avpResponseList
    ensures (record.captureTimestamp - time) % 0x1_0000_0000 == 0 && (record.sourceId - appId) % 0x1_0000_0000 == 0
    ensures -0x8000_0000 <= time < 0x8000_0000 ==> record.captureTimestamp == time
    ensures appId < 0x8000_0000 ==> record.sourceId == appId
  {
    NarrowsTo32(appId);
    NarrowsTo32(time);
    record := new IO.RadiusRequest();
    record.avpRequestList := MapToAvpList(req, record.avpRequestList);
    record.isset := record.isset.(avpRequestList := true);
    record.avpResponseList := MapToAvpList(rsp, record.avpResponseList);
    record.isset := record.isset.(avpResponseList := true);
    record.sourceId := NarrowTo32(appId);
    record.captureTimestamp := NarrowTo32(time);
    assert [] + AvpList(req) == AvpList(req) && [] + AvpList(rsp) == AvpList(rsp);
  }

  /** A map over shorts has far fewer than 2^32 entries. */
  lemma RecordFits(appId: uint32, time: int, req: Attributes, rsp: Attributes)
    ensures R.ListsFit(RecordOf(appId, time, AvpList(req), AvpList(rsp)))
  {
    InOrderAscends(req.Keys);
    InOrderAscends(rsp.Keys);
    AvpsForLength(req, InOrder(req.Keys));
    AvpsForLength(rsp, InOrder(rsp.Keys));
    SmallKeySet(req.Keys, 0x8000);
    SmallKeySet(rsp.Keys, 0x8000);
  }

  /** What the server reads from the wire, whatever follows the record, gives back both attribute maps exactly when
      all attribute types are octets. */
  lemma ReportSurvivesTheWire(appId: uint32, time: int, req: Attributes, rsp: Attributes, rest: Stream)
    ensures var sent := RecordOf(appId, time, AvpList(req), AvpList(rsp));
            var res := R.ReadRequest(R.FRESH_REQUEST, R.WriteRequest(sent) + rest);
            && res.Success? && res.value.1 == rest
            && (Recover(res.value.0.avpRequestList) == req <==> TypesAreOctets(req))
            && (Recover(res.value.0.avpResponseList) == rsp <==> TypesAreOctets(rsp))
  {
    RecordFits(appId, time, req, rsp);
    R.RoundTrip(RecordOf(appId, time, AvpList(req), AvpList(rsp)), rest);
    RecoverExactly(req);
    RecoverExactly(rsp);
  }

  // ---- From the packets to the server ----

  lemma SameOctet(a: int16)
    ensures Octet(NarrowTo8(a)) == a % 0x100
  {
  }

  /** Recovering one more avp. */
  lemma RecoverSnoc(attrs: Attributes, ks: seq<int16>, k: int16)
    requires k in attrs && forall i :: 0 <= i < |ks| ==> ks[i] in attrs
    ensures Recover(AvpsFor(attrs, ks + [k])) == Recover(AvpsFor(attrs, ks))[Octet(NarrowTo8(k)) := attrs[k]]
  {
    AvpsForSnoc(attrs, ks, k);
    var front := AvpsFor(attrs, ks);
    assert (front + [R.Avp(NarrowTo8(k), attrs[k])])[..|front|] == front;
  }

  /** Of all keys that narrow to a type, the one listed last decides. */
  lemma {:induction false} LastListedWins(attrs: Attributes, ks: seq<int16>, key: int16)
    requires forall i :: 0 <= i < |ks| ==> ks[i] in attrs
    requires forall i, j :: 0 <= i < j < |ks| ==> ks[i] < ks[j]
    requires key in ks && forall i :: 0 <= i < |ks| && Octet(NarrowTo8(ks[i])) == Octet(NarrowTo8(key)) ==> ks[i] <= key
    ensures var m, o := Recover(AvpsFor(attrs, ks)), Octet(NarrowTo8(key)); o in m && m[o] == attrs[key]
    decreases |ks|
  {
    var n := |ks| - 1;
    var k := ks[n];
    assert ks == ks[..n] + [k];
    RecoverSnoc(attrs, ks[..n], k);
    if k != key {
      assert key in ks[..n];
      LastListedWins(attrs, ks[..n], key);
    }
  }

  lemma {:induction false} OnlyListedTypes(attrs: Attributes, ks: seq<int16>, o: int16)
    requires forall i :: 0 <= i < |ks| ==> ks[i] in attrs
    requires o in Recover(AvpsFor(attrs, ks))
    ensures exists k :: k in ks && Octet(NarrowTo8(k)) == o
    decreases |ks|
  {
    if ks != [] {
      var n := |ks| - 1;
      assert ks == ks[..n] + [ks[n]];
      RecoverSnoc(attrs, ks[..n], ks[n]);
      if Octet(NarrowTo8(ks[n])) == o {
        assert ks[n] in ks;
      } else {
        OnlyListedTypes(attrs, ks[..n], o);
        var k :| k in ks[..n] && Octet(NarrowTo8(k)) == o;
        assert k in ks;
      }
    }
  }

  /** What a list of avps says about a packet: for each key that attributes of the packet have, what the last of them
      shows, under the key's type, unless a greater key has the same type; and no other type. A key that is an octet is
      its own type. */
  ghost predicate Tells(avps: seq<R.Avp>, vps: seq<RM.ValuePair>, ctime: nat -> string)
    requires forall vp <- vps :: RM.Sound(vp)
  {
    && (forall key: int16, i: nat :: RM.LastWith(vps, key, i) && LastOfType(vps, key) ==>
          && key % 0x100 in Recover(avps)
          && RM.ShowsAttribute(Recover(avps)[key % 0x100], vps[i], ctime))
    && (forall o <- Recover(avps) :: HasType(vps, o))
  }

  /** No attribute of the packet has a greater key of the same type. */
  ghost predicate LastOfType(vps: seq<RM.ValuePair>, key: int16) {
    forall l: int16, j: nat :: RM.LastWith(vps, l, j) && l % 0x100 == key % 0x100 ==> l <= key
  }

  ghost predicate HasType(vps: seq<RM.ValuePair>, o: int16) {
    exists key: int16, i: nat :: RM.LastWith(vps, key, i) && key % 0x100 == o
  }

  lemma KeyIsTold(attrs: Attributes, key: int16)
    requires key in attrs && forall l <- attrs :: l % 0x100 == key % 0x100 ==> l <= key
    ensures var m := Recover(AvpList(attrs)); key % 0x100 in m && m[key % 0x100] == attrs[key]
  {
    var ks := InOrder(attrs.Keys);
    InOrderAscends(attrs.Keys);
    forall i | 0 <= i < |ks| && Octet(NarrowTo8(ks[i])) == Octet(NarrowTo8(key))
      ensures ks[i] <= key
    {
      SameOctet(ks[i]);
      SameOctet(key);
    }
    LastListedWins(attrs, ks, key);
    SameOctet(key);
  }

  lemma OnlyTypesTold(attrs: Attributes, o: int16)
    requires o in Recover(AvpList(attrs))
    ensures exists key: int16 :: key in attrs && key % 0x100 == o
  {
    var ks := InOrder(attrs.Keys);
    InOrderAscends(attrs.Keys);
    OnlyListedTypes(attrs, ks, o);
    var k :| k in ks && Octet(NarrowTo8(k)) == o;
    SameOctet(k);
    assert k in attrs && k % 0x100 == o;
  }

  lemma AttributesTell(attrs: Attributes, vps: seq<RM.ValuePair>, ctime: nat -> string)
    requires forall vp <- vps :: RM.Sound(vp)
    requires RM.IsAttributesOf(attrs, vps, ctime)
    ensures Tells(AvpList(attrs), vps, ctime)
  {
    var m := Recover(AvpList(attrs));
    forall key: int16, i: nat | RM.LastWith(vps, key, i) && LastOfType(vps, key)
      ensures key % 0x100 in m && RM.ShowsAttribute(m[key % 0x100], vps[i], ctime)
    {
      forall l <- attrs | l % 0x100 == key % 0x100
        ensures l <= key
      {
        var j: nat :| RM.LastWith(vps, l, j);
      }
      KeyIsTold(attrs, key);
    }
    forall o <- m
      ensures HasType(vps, o)
    {
      OnlyTypesTold(attrs, o);
      var key: int16 :| key in attrs && key % 0x100 == o;
      var i: nat :| RM.LastWith(vps, key, i);
    }
  }

  /** From two packets of an identifier to the server: build both messages' attributes, make the record of the pair,
      write it, and read it on the other side, with anything behind it on the wire. What the server holds tells of both
      packets. */
  method ReportAndRead(appId: uint32, time: int, req: seq<RM.ValuePair>, rsp: seq<RM.ValuePair>, id: nat,
                       ctime: nat -> string, size: Token -> nat, rest: Stream)
    returns (got: IO.RadiusRequest, left: Stream)
    requires (forall vp <- req :: RM.Sound(vp)) && (forall vp <- rsp :: RM.Sound(vp))
    ensures Tells(got.Value().avpRequestList, req, ctime)
    ensures Tells(got.Value().avpResponseList, rsp, ctime)
    ensures (got.Value().captureTimestamp - time) % 0x1_0000_0000 == 0
    ensures -0x8000_0000 <= time < 0x8000_0000 ==> got.Value().captureTimestamp == time
    ensures (got.Value().sourceId - appId) % 0x1_0000_0000 == 0
    ensures appId < 0x8000_0000 ==> got.Value().sourceId == appId
    ensures left == rest
  {
    var _, reqAttrs := RM.BuildAttrsFromRadiusPacket(id, req, ctime);
    var _, rspAttrs := RM.BuildAttrsFromRadiusPacket(id, rsp, ctime);
    var record := BuildRecord(appId, time, reqAttrs, rspAttrs);
    RecordFits(appId, time, reqAttrs, rspAttrs);
    var written, consumed;
    got, written, consumed, left := IO.WriteThenRead(record, size, rest);
    AttributesTell(reqAttrs, req, ctime);
    AttributesTell(rspAttrs, rsp, ctime);
  }
}
