/** The proxying receiver: it peeks at each datagram, keeps a copy for one round, and forwards that copy before it
    waits for the next one. */
module RadiusProxies {
  import opened Wrappers
  import opened Integers

  type Packet = seq<byte>

  /** A socket address; the source compares and copies the raw structure. */
  datatype SockAddr = SockAddr(host: nat, port: nat)

  const NO_ADDR: SockAddr := SockAddr(0, 0)

  const NUM_RADIUS_CLIENT_ADDRS: nat := 256

  datatype Destination = DEST_NONE | DEST_SERVER | DEST_CLIENT

  /** What the socket does during one call: the wait throws, or this datagram is next in line. Each of the two peeks
      can fail; otherwise it returns the beginning of the datagram, at most as much as was asked for. */
  datatype Arrival = WaitThrows | Came(datagram: seq<byte>, source: SockAddr, headerFails: bool, dataFails: bool)

  /** An attempted send. */
  datatype Sent = Sent(packet: Packet, dest: SockAddr)

  // ---- The length field ----

  /** An octet of the header buffer as the platform's plain char. */
  function HeaderChar(signed: bool, b: byte): int {
    if signed && b >= 0x80 then b - 0x100 else b
  }

  /** The packet length the code computes from the peeked header. */
  function ComputedLength(signed: bool, header: seq<byte>): uint32
    requires |header| >= 4
  {
    (HeaderChar(signed, header[2]) * 256 + HeaderChar(signed, header[3])) % TWO32
  }

  /** The Length field as the RADIUS standard (RFC 2865, section 3) defines it. */
  function DeclaredLength(header: seq<byte>): nat
    requires |header| >= 4
  {
    256 * (header[2] as int) + header[3]
  }

  /** The computed length is the declared one exactly when plain char is unsigned or both octets are below 128. */
  lemma LengthIsDeclaredExactly(signed: bool, header: seq<byte>)
    requires |header| >= 4
    ensures ComputedLength(signed, header) == DeclaredLength(header)
            <==> !signed || (header[2] < 0x80 && header[3] < 0x80)
  {
  }

  /** A peek of at most `n` octets. */
  function Peek(datagram: seq<byte>, n: nat, fails: bool): seq<byte> {
    if fails then [] else if n < |datagram| then datagram[..n] else datagram
  }

  /** The packet one call takes over, if any: both peeks gave what was asked for and the length is not zero. */
  function Accepted(signed: bool, a: Arrival): Option<Packet> {
    if a.WaitThrows? then None
    else
      var header := Peek(a.datagram, 4, a.headerFails);
      if |header| < 4 then None
      else
        var len := ComputedLength(signed, header);
        var data := Peek(a.datagram, len, a.dataFails);
        if |data| < len || len == 0 then None else Some(data)
  }

  /** The packet is the beginning of the datagram, and it is what the Length field delimits exactly when plain char is
      unsigned or both octets are below 128. */
  lemma AcceptedIsDeclaredExactly(signed: bool, a: Arrival)
    requires Accepted(signed, a).Some?
    ensures var packet := Accepted(signed, a).value;
            && |a.datagram| >= 4 && packet != [] && packet <= a.datagram
            && (packet == Peek(a.datagram, DeclaredLength(a.datagram), false) && |packet| == DeclaredLength(a.datagram)
                <==> !signed || (a.datagram[2] < 0x80 && a.datagram[3] < 0x80))
  {
    LengthIsDeclaredExactly(signed, Peek(a.datagram, 4, false));
  }

  /** A datagram that is one whole packet is taken over unchanged exactly when plain char is unsigned or both Length
      octets are below 128. Otherwise it is dropped without a trace when the Length comes out negative, and cut short
      by 256 octets when only its low octet counts as negative. */
  lemma WholePacketIsTakenExactly(signed: bool, d: seq<byte>, source: SockAddr)
    requires |d| >= 4 && |d| == DeclaredLength(d)
    ensures var accepted := Accepted(signed, Came(d, source, false, false));
            && (accepted == Some(d) <==> !signed || (d[2] < 0x80 && d[3] < 0x80))
            && (accepted == None <==> signed && (d[2] >= 0x80 || (d[2] == 0 && d[3] >= 0x80)))
            && (signed && 0 < d[2] < 0x80 && d[3] >= 0x80 ==> |d| > 256 && accepted == Some(d[..|d| - 256]))
  {
    assert Peek(d, 4, false) == d[..4];
    var x := HeaderChar(signed, d[2]) * 256 + HeaderChar(signed, d[3]);
    assert x < 0 ==> x % TWO32 == x + TWO32;
    assert x >= 0 ==> x % TWO32 == x;
  }

  /** With signed char, a 456-octet packet (Length octets 1 and 200) loses all but its first 200 octets. */
  lemma SignedLengthCuts(code: byte, id: byte, body: seq<byte>, source: SockAddr)
    requires |body| == 452
    ensures var d := [code, id, 1, 200] + body;
            Accepted(true, Came(d, source, false, false)) == Some(d[..200]) && DeclaredLength(d) == |d| == 456
  {
    WholePacketIsTakenExactly(true, [code, id, 1, 200] + body, source);
  }

  /** With signed char, a 200-octet packet (Length octets 0 and 200) is dropped. */
  lemma SignedLengthDrops(code: byte, id: byte, body: seq<byte>, source: SockAddr)
    requires |body| == 196
    ensures var d := [code, id, 0, 200] + body;
            Accepted(true, Came(d, source, false, false)) == None && DeclaredLength(d) == |d| == 200
  {
    WholePacketIsTakenExactly(true, [code, id, 0, 200] + body, source);
  }

  /** The identifier of a packet; a packet of one octet has none, and reading it reads past the buffer. */
  function IdOf(packet: Packet): Option<byte> {
    if |packet| < 2 then None else Some(packet[1])
  }

  // ---- One call ----

  /** `faulted` is the end of the run: an octet behind the end of a buffer was read. */
  datatype Proxy = Proxy(
    signed: bool, server: SockAddr, clients: seq<SockAddr>,
    packet: Option<Packet>, len: uint32, destination: Destination, sent: seq<Sent>, faulted: bool)

  function Initial(signed: bool, server: SockAddr): (p: Proxy)
    ensures |p.clients| == NUM_RADIUS_CLIENT_ADDRS
  {
    Proxy(signed, server, seq(NUM_RADIUS_CLIENT_ADDRS, _ => NO_ADDR), None, 0, DEST_NONE, [], false)
  }

  /** The buffer is empty exactly when it has no destination and length zero; otherwise it holds a whole packet. */
  predicate Consistent(p: Proxy) {
    && |p.clients| == NUM_RADIUS_CLIENT_ADDRS
    && (p.packet.None? <==> p.destination.DEST_NONE?)
    && (p.packet.None? <==> p.len == 0)
    && (p.packet.Some? ==> |p.packet.value| == p.len)
    && (p.destination.DEST_SERVER? ==> p.len >= 2)
  }

  /** The send that the buffered packet gets, if its identifier can be read. */
  function Pending(p: Proxy): seq<Sent>
    requires Consistent(p)
  {
    if p.packet.None? then []
    else if p.destination.DEST_SERVER? then [Sent(p.packet.value, p.server)]
    else [Sent(p.packet.value, if p.len >= 2 then p.clients[p.packet.value[1]] else NO_ADDR)]
  }

  function Flushed(p: Proxy): (q: Proxy)
    requires Consistent(p)
    ensures Consistent(q) && q.signed == p.signed && q.server == p.server
  {
    if p.packet.Some? && IdOf(p.packet.value).None? then p.(faulted := true)
    else p.(sent := p.sent + Pending(p), packet := None, len := 0, destination := DEST_NONE)
  }

  /** A packet taken into the empty buffer. */
  function Buffered(p: Proxy, packet: Packet, source: SockAddr): (q: Proxy)
    requires Consistent(p) && p.packet.None? && packet != [] && |packet| < TWO32
    ensures Consistent(q) && q.signed == p.signed && q.server == p.server
  {
    if source == p.server then p.(packet := Some(packet), len := |packet|, destination := DEST_CLIENT)
    else if IdOf(packet).None? then p.(faulted := true)
    else p.(packet := Some(packet), len := |packet|, destination := DEST_SERVER,
            clients := p.clients[packet[1] := source])
  }

  function Call(p: Proxy, a: Arrival): (q: Proxy)
    requires Consistent(p)
    ensures Consistent(q) && q.signed == p.signed && q.server == p.server
  {
    var flushed := Flushed(p);
    if p.faulted then p
    else if flushed.faulted then flushed
    else
      match Accepted(p.signed, a)
      case None => flushed
      case Some(packet) => Buffered(flushed, packet, a.source)
  }

  /** The proxy object. `sent` records what was handed to the socket. */
  class RadiusProxyMsgReceiver {
    const charIsSigned: bool
    const serverAddr: SockAddr
    const clientAddrs: array<SockAddr>
    var bufferedPacket: Option<Packet>
    var bufferedPacketLen: uint32
    var bufferedPacketDestination: Destination
    var sent: seq<Sent>
    var faulted: bool

    ghost function Value(): Proxy
      reads this, clientAddrs
    {
      Proxy(charIsSigned, serverAddr, clientAddrs[..], bufferedPacket, bufferedPacketLen, bufferedPacketDestination,
            sent, faulted)
    }

    ghost predicate Valid()
      reads this, clientAddrs
    {
      Consistent(Value())
    }

    constructor (charIsSigned: bool, serverAddr: SockAddr)
      ensures Valid() && Value() == Initial(charIsSigned, serverAddr)
      ensures clientAddrs.Length == 256 && forall i :: 0 <= i < 256 ==> clientAddrs[i] == SockAddr(0, 0)
      ensures bufferedPacket.None? && bufferedPacketLen == 0 && bufferedPacketDestination == DEST_NONE && sent == []
      ensures fresh(clientAddrs)
    {
      this.charIsSigned, this.serverAddr := charIsSigned, serverAddr;
      clientAddrs := new SockAddr[NUM_RADIUS_CLIENT_ADDRS](_ => NO_ADDR);
      bufferedPacket, bufferedPacketLen, bufferedPacketDestination := None, 0, DEST_NONE;
      sent, faulted := [], false;
      new;
      assert clientAddrs[..] == Initial(charIsSigned, serverAddr).clients;
    }

    /** Peeks at the header for the length, then at the whole packet; length 0 means nothing usable arrived. */
    method CopyReceivedRadiusPacket(arrival: Arrival) returns (buf: Packet, len: uint32)
      requires arrival.Came?
      ensures len == 0 <==>
              || arrival.headerFails || |arrival.datagram| < 4
              || ComputedLength(charIsSigned, arrival.datagram) == 0
              || arrival.dataFails || |arrival.datagram| < ComputedLength(charIsSigned, arrival.datagram)
      ensures len != 0 ==> len == ComputedLength(charIsSigned, arrival.datagram) && buf == arrival.datagram[..len]
      ensures Accepted(charIsSigned, arrival) == if len == 0 then None else Some(buf)
    {
      buf := [];
      var header := Peek(arrival.datagram, 4, arrival.headerFails);
      if |header| < 4 {
        return buf, 0;
      }
      len := ComputedLength(charIsSigned, header);
      buf := Peek(arrival.datagram, len, arrival.dataFails);
      if |buf| < len {
        return buf, 0;
      }
    }

    /** Forwards the buffered packet, waits, and buffers the packet that arrived. */
    method WaitForRadiusPacket(arrival: Arrival) returns (threw: bool)
      requires Valid()
      modifies this, clientAddrs
      ensures Valid() && Value() == Call(old(Value()), arrival)
      ensures threw == (!Flushed(old(Value())).faulted && arrival.WaitThrows?)
    {
      threw := false;
      if faulted {
        return;
      }
      if bufferedPacketDestination != DEST_NONE {
        if bufferedPacketLen < 2 {
          faulted := true;
          return;
        }
        var id := bufferedPacket.value[1];
        var dest := if bufferedPacketDestination == DEST_CLIENT then clientAddrs[id] else serverAddr;
        sent := sent + [Sent(bufferedPacket.value, dest)];
        bufferedPacketDestination := DEST_NONE;
        bufferedPacket := None;
        bufferedPacketLen := 0;
      }
      assert Value() == Flushed(old(Value()));
      if arrival.WaitThrows? {
        return true;
      }
      var bufPtr, bufLen := CopyReceivedRadiusPacket(arrival);
      if bufLen <= 0 {
        return;
      }
      TakeOver(bufPtr, bufLen, arrival.source);
    }

    /** The end of that call: decide where the packet goes, note its sender, buffer it. */
    method TakeOver(bufPtr: Packet, bufLen: uint32, source: SockAddr)
      requires Valid() && bufferedPacket.None? && bufPtr != [] && |bufPtr| == bufLen
      modifies this, clientAddrs
      ensures Valid() && Value() == Buffered(old(Value()), bufPtr, source)
    {
      if source == serverAddr {
        bufferedPacketDestination := DEST_CLIENT;
      } else {
        if bufLen < 2 {
          faulted := true;
          return;
        }
        var id := bufPtr[1];
        clientAddrs[id] := source;
        bufferedPacketDestination := DEST_SERVER;
      }
      bufferedPacket := Some(bufPtr);
      bufferedPacketLen := bufLen;
    }
  }

  // ---- Whole runs against the history of arrivals ----

  function Run(signed: bool, server: SockAddr, history: seq<Arrival>): (p: Proxy)
    ensures Consistent(p) && p.signed == signed && p.server == server
  {
    if history == [] then Initial(signed, server)
    else Call(Run(signed, server, history[..|history| - 1]), history[|history| - 1])
  }

  /** The source of the latest client packet with this identifier. */
  function LatestClient(signed: bool, server: SockAddr, history: seq<Arrival>, id: byte): SockAddr {
    if history == [] then NO_ADDR
    else
      var last := history[|history| - 1];
      if Accepted(signed, last).Some? && last.source != server && IdOf(Accepted(signed, last).value) == Some(id)
      then last.source
      else LatestClient(signed, server, history[..|history| - 1], id)
  }

  /** Where a packet that arrived after `front` belongs: a reply to the latest client of its identifier, anything else
      to the server. */
  function RouteOf(signed: bool, server: SockAddr, front: seq<Arrival>, packet: Packet, source: SockAddr): Sent {
    if source != server then Sent(packet, server)
    else Sent(packet, if IdOf(packet).Some? then LatestClient(signed, server, front, IdOf(packet).value) else NO_ADDR)
  }

  /** The route of each accepted packet, in arrival order. */
  function Routes(signed: bool, server: SockAddr, history: seq<Arrival>): seq<Sent> {
    if history == [] then []
    else
      var front, last := history[..|history| - 1], history[|history| - 1];
      var routes := Routes(signed, server, front);
      match Accepted(signed, last)
      case None => routes
      case Some(packet) => routes + [RouteOf(signed, server, front, packet, last.source)]
  }

  /** A packet of one octet was accepted and its identifier was needed: at once for a client's, one call later for the
      server's. */
  predicate ShortRead(signed: bool, server: SockAddr, history: seq<Arrival>, i: nat)
    requires i < |history|
  {
    && Accepted(signed, history[i]).Some? && IdOf(Accepted(signed, history[i]).value).None?
    && (history[i].source != server || i + 1 < |history|)
  }

  /** The run ended in an out-of-bounds read exactly when there was such a packet. */
  ghost predicate Broken(signed: bool, server: SockAddr, history: seq<Arrival>) {
    exists i: nat :: i < |history| && ShortRead(signed, server, history, i)
  }

  /** What the last two arrivals decide. */
  lemma BrokenSnoc(signed: bool, server: SockAddr, history: seq<Arrival>)
    requires history != []
    ensures var n := |history| - 1;
            Broken(signed, server, history) <==>
              || Broken(signed, server, history[..n])
              || (n > 0 && ShortRead(signed, server, history, n - 1))
              || ShortRead(signed, server, history, n)
  {
    var n := |history| - 1;
    var front := history[..n];
    if Broken(signed, server, history) {
      var i: nat :| i < |history| && ShortRead(signed, server, history, i);
      if i < n - 1 {
        assert ShortRead(signed, server, front, i);
      }
    }
    if Broken(signed, server, front) {
      var i: nat :| i < n && ShortRead(signed, server, front, i);
      assert ShortRead(signed, server, history, i);
    }
  }

  /** The buffer holds the packet of the last call, if it took one over. */
  lemma {:induction false} BufferIsLast(signed: bool, server: SockAddr, history: seq<Arrival>)
    requires history != [] && !Run(signed, server, history).faulted
    ensures var p, last := Run(signed, server, history), history[|history| - 1];
            && p.packet == Accepted(signed, last)
            && (p.packet.Some? ==> p.destination == if last.source == server then DEST_CLIENT else DEST_SERVER)
  {
  }

  lemma CallFaults(p: Proxy, a: Arrival)
    requires Consistent(p)
    ensures Call(p, a).faulted <==>
              || p.faulted
              || (p.packet.Some? && IdOf(p.packet.value).None?)
              || (Accepted(p.signed, a).Some? && a.source != p.server && IdOf(Accepted(p.signed, a).value).None?)
  {
  }

  lemma {:induction false} FaultsExactly(signed: bool, server: SockAddr, history: seq<Arrival>)
    ensures Run(signed, server, history).faulted <==> Broken(signed, server, history)
    decreases |history|
  {
    if history != [] {
      var n := |history| - 1;
      var front := history[..n];
      FaultsExactly(signed, server, front);
      BrokenSnoc(signed, server, history);
      CallFaults(Run(signed, server, front), history[n]);
      if n > 0 && !Run(signed, server, front).faulted {
        BufferIsLast(signed, server, front);
      }
    }
  }

  /** A client's datagram with Length 1 ends the run at once, whatever came before. */
  lemma OneOctetPacketFaults(signed: bool, server: SockAddr, front: seq<Arrival>, code: byte, id: byte, body: seq<byte>,
                             source: SockAddr)
    requires source != server
    ensures Run(signed, server, front + [Came([code, id, 0, 1] + body, source, false, false)]).faulted
  {
    var d := [code, id, 0, 1] + body;
    var history := front + [Came(d, source, false, false)];
    assert Peek(d, 4, false)[2] == 0 && Peek(d, 4, false)[3] == 1;
    assert Accepted(signed, history[|front|]) == Some(d[..1]);
    assert ShortRead(signed, server, history, |front|);
    FaultsExactly(signed, server, history);
  }

  lemma {:induction false} ClientTableIsLatest(signed: bool, server: SockAddr, history: seq<Arrival>, id: byte)
    requires !Run(signed, server, history).faulted
    ensures Run(signed, server, history).clients[id] == LatestClient(signed, server, history, id)
    decreases |history|
  {
    if history != [] {
      ClientTableIsLatest(signed, server, history[..|history| - 1], id);
    }
  }

  /** One call sends what was pending, or nothing when the run has ended before. */
  lemma CallSends(p: Proxy, a: Arrival)
    requires Consistent(p)
    ensures var q := Call(p, a);
            if p.faulted || Flushed(p).faulted then q.faulted && q.sent == p.sent else q.sent == p.sent + Pending(p)
  {
  }

  /** After one more arrival the buffered packet's route is the last one. */
  lemma PendingIsRoute(signed: bool, server: SockAddr, front: seq<Arrival>, last: Arrival)
    requires var before := Run(signed, server, front); !before.faulted && !Call(before, last).faulted
    ensures var p := Call(Run(signed, server, front), last);
            Pending(p) == match Accepted(signed, last)
                          case None => []
                          case Some(packet) => [RouteOf(signed, server, front, packet, last.source)]
  {
    if Accepted(signed, last).Some? && IdOf(Accepted(signed, last).value).Some? {
      ClientTableIsLatest(signed, server, front, IdOf(Accepted(signed, last).value).value);
    }
  }

  /** In every run, including failed waits and failed peeks, the attempted sends are the accepted packets in arrival
      order, each once, unchanged and to the right address, except that the packet of the very last call may still
      be buffered; up to an out-of-bounds read they are a beginning of that. */
  lemma {:induction false} ForwardsEverythingOnce(signed: bool, server: SockAddr, history: seq<Arrival>)
    ensures var p := Run(signed, server, history);
            && p.sent <= Routes(signed, server, history)
            && (!p.faulted ==>
                  && p.sent + Pending(p) == Routes(signed, server, history)
                  && (p.packet.Some? <==> history != [] && Accepted(signed, history[|history| - 1]).Some?))
            && (p.packet.None? <==> p.destination.DEST_NONE?)
            && (p.packet.None? <==> p.len == 0)
    decreases |history|
  {
    if history != [] {
      var front, last := history[..|history| - 1], history[|history| - 1];
      ForwardsEverythingOnce(signed, server, front);
      CallSends(Run(signed, server, front), last);
      if !Run(signed, server, history).faulted {
        PendingIsRoute(signed, server, front, last);
      }
    }
  }
}
