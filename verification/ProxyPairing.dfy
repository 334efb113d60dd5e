/** The proxy and the pairing engine together, seen through one identifier: the proxy peeks at each datagram, the
    receiver loop then hands it to the engine as a message whose key is the decimal form of its identifier. */
module ProxyPairing {
  import opened Wrappers
  import opened Integers
  import opened RadiusProxies
  import M = PairingMachine
  import I = PairingInvariants
  import C = CoarsePairing
  import P = PairingRefinement
  import RM = RadiusMessages

  /** A packet the proxy took over, with its sender. */
  datatype Datagram = Datagram(data: Packet, source: SockAddr)

  /** The proxy takes over a packet with this identifier. */
  predicate TakesFor(signed: bool, a: Arrival, id: byte) {
    Accepted(signed, a).Some? && IdOf(Accepted(signed, a).value) == Some(id)
  }

  /** The packets with this identifier that the proxy took over, in order of arrival. */
  function TakenFor(signed: bool, history: seq<Arrival>, id: byte): seq<Datagram> {
    if history == [] then []
    else
      var before, last := TakenFor(signed, history[..|history| - 1], id), history[|history| - 1];
      if TakesFor(signed, last, id) then before + [Datagram(Accepted(signed, last).value, last.source)] else before
  }

  /** The sends of packets with this identifier. */
  function SendsFor(sends: seq<Sent>, id: byte): seq<Sent> {
    if sends == [] then []
    else
      var before, last := SendsFor(sends[..|sends| - 1], id), sends[|sends| - 1];
      if IdOf(last.packet) == Some(id) then before + [last] else before
  }

  /** A client request and a server reply alternate, beginning with a request. */
  predicate Alternates(server: SockAddr, ds: seq<Datagram>) {
    forall k :: 0 <= k < |ds| ==> (ds[k].source == server <==> k % 2 == 1)
  }

  // ---- The proxy's side ----

  lemma SendsAppend(sends: seq<Sent>, s: Sent, id: byte)
    ensures SendsFor(sends + [s], id)
            == if IdOf(s.packet) == Some(id) then SendsFor(sends, id) + [s] else SendsFor(sends, id)
  {
    assert (sends + [s])[..|sends|] == sends;
  }

  /** When the packet taken over last came from a client, that client is the latest one. */
  lemma {:induction false} LatestIsLastTaken(signed: bool, server: SockAddr, history: seq<Arrival>, id: byte)
    requires var ds := TakenFor(signed, history, id); ds != [] && ds[|ds| - 1].source != server
    ensures var ds := TakenFor(signed, history, id); LatestClient(signed, server, history, id) == ds[|ds| - 1].source
    decreases |history|
  {
    var n := |history| - 1;
    if !TakesFor(signed, history[n], id) {
      LatestIsLastTaken(signed, server, history[..n], id);
    }
  }

  /** A request goes to the server, a reply to the sender of the request before it. */
  function DestOf(server: SockAddr, ds: seq<Datagram>, k: nat): SockAddr
    requires k <= |ds|
  {
    if k % 2 == 1 then ds[k - 1].source else server
  }

  predicate AddressedBack(server: SockAddr, ds: seq<Datagram>, sends: seq<Sent>) {
    && |sends| == |ds|
    && forall k: nat :: k < |ds| ==> sends[k] == Sent(ds[k].data, DestOf(server, ds, k))
  }

  lemma AddressedNext(server: SockAddr, ds: seq<Datagram>, sends: seq<Sent>, d: Datagram)
    requires AddressedBack(server, ds, sends)
    ensures AddressedBack(server, ds + [d], sends + [Sent(d.data, DestOf(server, ds, |ds|))])
  {
    forall k: nat | k <= |ds|
      ensures DestOf(server, ds + [d], k) == DestOf(server, ds, k)
    {
    }
  }

  lemma AlternatesFront(server: SockAddr, ds: seq<Datagram>, d: Datagram)
    requires Alternates(server, ds + [d])
    ensures Alternates(server, ds) && (d.source == server <==> |ds| % 2 == 1)
  {
    assert (ds + [d])[|ds|] == d;
    assert forall k :: 0 <= k < |ds| ==> (ds + [d])[k] == ds[k];
  }

  /** The route of one more packet with the identifier. */
  lemma RouteOfNext(signed: bool, server: SockAddr, front: seq<Arrival>, id: byte, d: Datagram)
    requires Alternates(server, TakenFor(signed, front, id) + [d]) && IdOf(d.data) == Some(id)
    ensures var ds := TakenFor(signed, front, id);
            RouteOf(signed, server, front, d.data, d.source)
            == Sent(d.data, DestOf(server, ds, |ds|))
  {
    var ds := TakenFor(signed, front, id);
    AlternatesFront(server, ds, d);
    if |ds| % 2 == 1 {
      LatestIsLastTaken(signed, server, front, id);
    }
  }

  /** Whatever arrives besides, the routes of an alternating identifier lead back and forth. */
  lemma {:induction false} RoutesAddressedBack(signed: bool, server: SockAddr, history: seq<Arrival>, id: byte)
    requires Alternates(server, TakenFor(signed, history, id))
    ensures AddressedBack(server, TakenFor(signed, history, id), SendsFor(Routes(signed, server, history), id))
    decreases |history|
  {
    if history != [] {
      var front, last := history[..|history| - 1], history[|history| - 1];
      var ds, routes := TakenFor(signed, front, id), Routes(signed, server, front);
      match Accepted(signed, last)
      case None => RoutesAddressedBack(signed, server, front, id);
      case Some(packet) =>
        var d := Datagram(packet, last.source);
        SendsAppend(routes, RouteOf(signed, server, front, packet, last.source), id);
        if IdOf(packet) == Some(id) {
          AlternatesFront(server, ds, d);
          RoutesAddressedBack(signed, server, front, id);
          RouteOfNext(signed, server, front, id, d);
          AddressedNext(server, ds, SendsFor(routes, id), d);
        } else {
          RoutesAddressedBack(signed, server, front, id);
        }
    }
  }

  /** All sends of a proxy run, the one still buffered included. */
  function Attempts(signed: bool, server: SockAddr, history: seq<Arrival>): seq<Sent> {
    var p := Run(signed, server, history);
    p.sent + Pending(p)
  }

  lemma AttemptsAddressedBack(signed: bool, server: SockAddr, history: seq<Arrival>, id: byte)
    requires !Broken(signed, server, history) && Alternates(server, TakenFor(signed, history, id))
    ensures AddressedBack(server, TakenFor(signed, history, id), SendsFor(Attempts(signed, server, history), id))
  {
    FaultsExactly(signed, server, history);
    ForwardsEverythingOnce(signed, server, history);
    RoutesAddressedBack(signed, server, history, id);
  }

  // ---- Both sides together ----

  /** The engine is between two messages, has received as many messages of the key as the proxy took packets of the
      identifier, and evicted none of the waiting ones. */
  ghost predicate Matches(s: M.State, key: string, ds: seq<Datagram>) {
    s.rpc.Idle? && P.Unexpired(s.log, key) && |P.MessagesFor(s.arrived, key)| == |ds|
  }

  /** What stands at the positions 2j and 2j + 1: a report of the two messages, a request and a reply among the packets,
      and the reply's send, addressed to the sender of that request. */
  predicate RoutedBack(server: SockAddr, ds: seq<Datagram>, ms: seq<M.Message>, sends: seq<Sent>, r: M.Report, j: nat) {
    && 2 * j + 1 < |ds| == |ms| == |sends|
    && r == M.Report(ms[2 * j], ms[2 * j + 1])
    && ds[2 * j].source != server && ds[2 * j + 1].source == server
    && sends[2 * j] == Sent(ds[2 * j].data, server)
    && sends[2 * j + 1] == Sent(ds[2 * j + 1].data, ds[2 * j].source)
  }

  /** That is so for every report, and there is one for every two packets. */
  predicate AllRoutedBack(server: SockAddr, ds: seq<Datagram>, ms: seq<M.Message>, sends: seq<Sent>,
                          reports: seq<M.Report>) {
    && |reports| == |ds| / 2
    && forall j: nat :: j < |reports| ==> RoutedBack(server, ds, ms, sends, reports[j], j)
  }

  lemma PairsAreRoutedBack(server: SockAddr, ds: seq<Datagram>, ms: seq<M.Message>, sends: seq<Sent>,
                           reports: seq<M.Report>)
    requires Alternates(server, ds) && AddressedBack(server, ds, sends)
    requires |ms| == |ds| && P.ConsecutivePairs(ms, reports)
    ensures AllRoutedBack(server, ds, ms, sends, reports)
  {
    forall j: nat | j < |reports|
      ensures RoutedBack(server, ds, ms, sends, reports[j], j)
    {
      assert DestOf(server, ds, 2 * j) == server && DestOf(server, ds, 2 * j + 1) == ds[2 * j].source;
    }
  }

  /** Both sides by position alone: in any interleaving, while the packets of one identifier alternate and no waiting
      message of it is evicted, reports, packets and sends fall into step. That the i-th message is made from the i-th
      packet is not said here; equal counts do not give it (`EqualCountsDoNotSuffice`). */
  lemma PositionsFallIntoStep(signed: bool, server: SockAddr, history: seq<Arrival>, id: byte,
                              start: int, duration: nat, schedule: seq<M.Action>,
                              ds: seq<Datagram>, sends: seq<Sent>, s: M.State, key: string)
    requires !Broken(signed, server, history)
    requires ds == TakenFor(signed, history, id) && sends == SendsFor(Attempts(signed, server, history), id)
    requires s == M.Run(M.Init(start, duration), schedule) && key == RM.Decimal(id)
    requires Alternates(server, ds) && Matches(s, key, ds)
    ensures AllRoutedBack(server, ds, P.MessagesFor(s.arrived, key), sends, P.ReportsFor(s.reports, key))
  {
    P.UnexpiredKeyPairsInOrder(start, duration, schedule, key);
    AttemptsAddressedBack(signed, server, history, id);
    PairsAreRoutedBack(server, ds, P.MessagesFor(s.arrived, key), sends, P.ReportsFor(s.reports, key));
  }

  // ---- The receiver loop ----

  /** One turn of the receiver loop: what the proxy meets, and the identifier of the message handed to the handler, if
      the turn gets that far. Proxy and RADIUS library can disagree on a datagram: the loop goes on to the library also
      when the proxy's peek gave nothing usable. */
  datatype Turn = Turn(arrival: Arrival, handled: Option<byte>)

  function Arrivals(turns: seq<Turn>): seq<Arrival> {
    if turns == [] then [] else Arrivals(turns[..|turns| - 1]) + [turns[|turns| - 1].arrival]
  }

  /** The messages handed to the handler, numbered as the engine numbers them. */
  function Handed(turns: seq<Turn>): seq<M.Message> {
    if turns == [] then []
    else
      var before, last := Handed(turns[..|turns| - 1]), turns[|turns| - 1];
      if last.handled.Some? then before + [M.Message(|before|, RM.Decimal(last.handled.value))] else before
  }

  /** The turns that handed over a message of the identifier, in order. */
  function TurnsFor(turns: seq<Turn>, id: byte): (ts: seq<nat>)
    ensures forall t: nat :: t in ts <==> t < |turns| && turns[t].handled == Some(id)
    ensures forall i, j :: 0 <= i < j < |ts| ==> ts[i] < ts[j]
  {
    if turns == [] then []
    else
      var n := |turns| - 1;
      var before := TurnsFor(turns[..n], id);
      assert forall i :: 0 <= i < |before| ==> before[i] in before;
      if turns[n].handled == Some(id) then before + [n] else before
  }

  /** The turns in which the proxy took a packet of the identifier, in order. */
  function TurnsTaken(signed: bool, turns: seq<Turn>, id: byte): (ts: seq<nat>)
    ensures forall t: nat :: t in ts <==> t < |turns| && TakesFor(signed, turns[t].arrival, id)
  {
    if turns == [] then []
    else
      var n := |turns| - 1;
      var before := TurnsTaken(signed, turns[..n], id);
      if TakesFor(signed, turns[n].arrival, id) then before + [n] else before
  }

  /** Proxy and library agree about the packets of this identifier; about others they need not. */
  predicate AgreeOn(signed: bool, turns: seq<Turn>, id: byte) {
    TurnsTaken(signed, turns, id) == TurnsFor(turns, id)
  }

  lemma AgreeFront(signed: bool, turns: seq<Turn>, id: byte)
    requires AgreeOn(signed, turns, id) && turns != []
    ensures AgreeOn(signed, turns[..|turns| - 1], id)
    ensures TakesFor(signed, turns[|turns| - 1].arrival, id) <==> turns[|turns| - 1].handled == Some(id)
  {
    var n := |turns| - 1;
    assert n in TurnsTaken(signed, turns, id) <==> n in TurnsFor(turns, id);
    var a, b := TurnsTaken(signed, turns[..n], id), TurnsFor(turns[..n], id);
    if turns[n].handled == Some(id) {
      assert (a + [n])[..|a|] == a && (b + [n])[..|b|] == b;
    }
  }

  /** The packet and the message come from this turn: the proxy took the packet in it, and the message is the one that
      the turn handed over. */
  predicate FromTurn(signed: bool, turns: seq<Turn>, id: byte, t: nat, d: Datagram, m: M.Message) {
    && t < |turns| && turns[t].handled == Some(id)
    && turns[t].arrival.Came? && turns[t].arrival.source == d.source
    && Accepted(signed, turns[t].arrival) == Some(d.data)
    && m == M.Message(|Handed(turns[..t])|, RM.Decimal(id))
  }

  /** The i-th packet and the i-th message come from the i-th turn of the identifier. */
  ghost predicate Aligned(signed: bool, turns: seq<Turn>, id: byte, ds: seq<Datagram>, ms: seq<M.Message>) {
    && |ds| == |ms| == |TurnsFor(turns, id)|
    && forall i :: 0 <= i < |ds| ==> FromTurn(signed, turns, id, TurnsFor(turns, id)[i], ds[i], ms[i])
  }

  lemma FromTurnExtends(signed: bool, turns: seq<Turn>, id: byte, t: nat, d: Datagram, m: M.Message)
    requires turns != [] && FromTurn(signed, turns[..|turns| - 1], id, t, d, m)
    ensures FromTurn(signed, turns, id, t, d, m)
  {
    assert turns[..|turns| - 1][..t] == turns[..t];
  }

  lemma AlignedExtends(signed: bool, turns: seq<Turn>, id: byte, ds: seq<Datagram>, ms: seq<M.Message>)
    requires turns != [] && Aligned(signed, turns[..|turns| - 1], id, ds, ms)
    requires turns[|turns| - 1].handled != Some(id)
    ensures Aligned(signed, turns, id, ds, ms)
  {
    var ts := TurnsFor(turns, id);
    forall i | 0 <= i < |ds|
      ensures FromTurn(signed, turns, id, ts[i], ds[i], ms[i])
    {
      FromTurnExtends(signed, turns, id, ts[i], ds[i], ms[i]);
    }
  }

  lemma AlignedNext(signed: bool, turns: seq<Turn>, id: byte, ds: seq<Datagram>, ms: seq<M.Message>, d: Datagram,
                    m: M.Message)
    requires turns != [] && Aligned(signed, turns[..|turns| - 1], id, ds, ms)
    requires FromTurn(signed, turns, id, |turns| - 1, d, m)
    ensures Aligned(signed, turns, id, ds + [d], ms + [m])
  {
    var ts, ts0 := TurnsFor(turns, id), TurnsFor(turns[..|turns| - 1], id);
    assert ts == ts0 + [|turns| - 1];
    forall i | 0 <= i <= |ds|
      ensures FromTurn(signed, turns, id, ts[i], (ds + [d])[i], (ms + [m])[i])
    {
      if i < |ds| {
        FromTurnExtends(signed, turns, id, ts0[i], ds[i], ms[i]);
      }
    }
  }

  /** Where proxy and library agree about the identifier, its packets and its messages come from the same turns:
      different identifiers have different keys. */
  lemma {:induction false} AgreedAligned(signed: bool, turns: seq<Turn>, id: byte)
    requires AgreeOn(signed, turns, id)
    ensures Aligned(signed, turns, id, TakenFor(signed, Arrivals(turns), id),
                    P.MessagesFor(Handed(turns), RM.Decimal(id)))
    decreases |turns|
  {
    if turns != [] {
      var front, last, key := turns[..|turns| - 1], turns[|turns| - 1], RM.Decimal(id);
      var ds, ms := TakenFor(signed, Arrivals(front), id), P.MessagesFor(Handed(front), key);
      AgreeFront(signed, turns, id);
      AgreedAligned(signed, front, id);
      assert Arrivals(turns)[..|Arrivals(turns)| - 1] == Arrivals(front);
      if last.handled.Some? {
        var m := M.Message(|Handed(front)|, RM.Decimal(last.handled.value));
        P.MessagesAppend(Handed(front), m, key);
        if m.key == key {
          RM.KeyIsInjective(last.handled.value, id);
        }
      }
      if last.handled == Some(id) {
        var d := Datagram(Accepted(signed, last.arrival).value, last.arrival.source);
        AlignedNext(signed, turns, id, ds, ms, d, M.Message(|Handed(front)|, key));
      } else {
        AlignedExtends(signed, turns, id, ds, ms);
      }
    }
  }

  /** The engine has received what the loop handed to it. */
  predicate Follows(turns: seq<Turn>, arrived: seq<M.Message>) {
    arrived == Handed(turns)
  }

  lemma {:induction false} HandedNumbered(turns: seq<Turn>)
    ensures forall i :: 0 <= i < |Handed(turns)| ==> Handed(turns)[i].serial == i
    decreases |turns|
  {
    if turns != [] {
      HandedNumbered(turns[..|turns| - 1]);
    }
  }

  /** For that it is enough that the keys are the same: the engine numbers what it receives. */
  lemma KeysSuffice(turns: seq<Turn>, start: int, duration: nat, schedule: seq<M.Action>)
    requires var arrived := M.Run(M.Init(start, duration), schedule).arrived;
             |arrived| == |Handed(turns)| && forall i :: 0 <= i < |arrived| ==> arrived[i].key == Handed(turns)[i].key
    ensures Follows(turns, M.Run(M.Init(start, duration), schedule).arrived)
  {
    I.EveryRun(start, duration, schedule);
    HandedNumbered(turns);
  }

  // ---- The result ----

  /** The report pairs what these two turns handed over: a client's request, then the server's reply. Among the sends of
      the identifier, number 2j carries the packet of the request's turn to the server, and number 2j + 1 that of the
      reply's turn to the sender of the request. */
  predicate Served(signed: bool, server: SockAddr, turns: seq<Turn>, id: byte, sends: seq<Sent>, r: M.Report, j: nat,
                   request: nat, reply: nat) {
    && request < reply < |turns| && turns[request].arrival.Came? && turns[reply].arrival.Came?
    && turns[request].handled == Some(id) && turns[reply].handled == Some(id)
    && r == M.Report(M.Message(|Handed(turns[..request])|, RM.Decimal(id)),
                     M.Message(|Handed(turns[..reply])|, RM.Decimal(id)))
    && turns[request].arrival.source != server && turns[reply].arrival.source == server
    && 2 * j + 1 < |sends|
    && Accepted(signed, turns[request].arrival) == Some(sends[2 * j].packet) && sends[2 * j].dest == server
    && Accepted(signed, turns[reply].arrival) == Some(sends[2 * j + 1].packet)
    && sends[2 * j + 1].dest == turns[request].arrival.source
  }

  /** The j-th report is served by the j-th pair of turns of the identifier, for every j, and there is a report for
      every such pair. */
  ghost predicate AllServed(signed: bool, server: SockAddr, turns: seq<Turn>, id: byte, sends: seq<Sent>,
                            reports: seq<M.Report>) {
    var ts := TurnsFor(turns, id);
    && |reports| == |ts| / 2 && |sends| == |ts|
    && forall j: nat :: j < |reports| ==>
         Served(signed, server, turns, id, sends, reports[j], j, ts[2 * j], ts[2 * j + 1])
  }

  lemma RoutedIsServed(signed: bool, server: SockAddr, turns: seq<Turn>, id: byte, ds: seq<Datagram>,
                       ms: seq<M.Message>, sends: seq<Sent>, reports: seq<M.Report>)
    requires Aligned(signed, turns, id, ds, ms) && |sends| == |ds|
    requires AllRoutedBack(server, ds, ms, sends, reports)
    ensures AllServed(signed, server, turns, id, sends, reports)
  {
    var ts := TurnsFor(turns, id);
    forall j: nat | j < |reports|
      ensures Served(signed, server, turns, id, sends, reports[j], j, ts[2 * j], ts[2 * j + 1])
    {
      assert RoutedBack(server, ds, ms, sends, reports[j], j);
      assert FromTurn(signed, turns, id, ts[2 * j], ds[2 * j], ms[2 * j]);
      assert FromTurn(signed, turns, id, ts[2 * j + 1], ds[2 * j + 1], ms[2 * j + 1]);
    }
  }

  /** In the receiver loop, in any interleaving with the pool thread: while the requests and replies of one identifier
      alternate, proxy and library agree about its packets, and no waiting message of it is evicted, every pair that
      the handler reports for it is made of a client's request and the server's reply to it, and the proxy addresses
      that reply to the client whose request is reported. Turns without a packet of the identifier do not matter. */
  lemma RepliesReachTheirRequester(signed: bool, server: SockAddr, turns: seq<Turn>, history: seq<Arrival>, id: byte,
                                   start: int, duration: nat, schedule: seq<M.Action>,
                                   ds: seq<Datagram>, attempts: seq<Sent>, s: M.State, key: string,
                                   reports: seq<M.Report>)
    requires history == Arrivals(turns) && !Broken(signed, server, history)
    requires ds == TakenFor(signed, history, id) && attempts == Attempts(signed, server, history)
    requires s == M.Run(M.Init(start, duration), schedule)
    requires key == RM.Decimal(id) && reports == P.ReportsFor(s.reports, key)
    requires Alternates(server, ds) && AgreeOn(signed, turns, id)
    requires s.rpc.Idle? && P.Unexpired(s.log, key) && Follows(turns, s.arrived)
    ensures AllServed(signed, server, turns, id, SendsFor(attempts, id), reports)
  {
    AgreedAligned(signed, turns, id);
    PositionsFallIntoStep(signed, server, history, id, start, duration, schedule, ds, SendsFor(attempts, id), s, key);
    AttemptsAddressedBack(signed, server, history, id);
    RoutedIsServed(signed, server, turns, id, ds, P.MessagesFor(s.arrived, key), SendsFor(attempts, id), reports);
  }

  /** The message of this turn is the second half of some report. */
  ghost predicate Completes(turns: seq<Turn>, id: byte, reply: nat, reports: seq<M.Report>) {
    && reply < |turns|
    && exists j :: 0 <= j < |reports| && reports[j].second == M.Message(|Handed(turns[..reply])|, RM.Decimal(id))
  }

  /** A turn of the identifier in which the server's packet came has an odd position. */
  lemma ReplyPosition(signed: bool, server: SockAddr, turns: seq<Turn>, id: byte, ds: seq<Datagram>,
                      ms: seq<M.Message>, reply: nat) returns (j: nat)
    requires Aligned(signed, turns, id, ds, ms) && Alternates(server, ds)
    requires reply < |turns| && turns[reply].handled == Some(id)
    requires turns[reply].arrival.Came? && turns[reply].arrival.source == server
    ensures 2 * j + 1 < |ds| && TurnsFor(turns, id)[2 * j + 1] == reply
  {
    var ts := TurnsFor(turns, id);
    assert reply in ts;
    var k :| 0 <= k < |ts| && ts[k] == reply;
    assert FromTurn(signed, turns, id, ts[k], ds[k], ms[k]);
    OddFromServer(server, ds, k);
    j := k / 2;
  }

  lemma OddFromServer(server: SockAddr, ds: seq<Datagram>, k: nat)
    requires Alternates(server, ds) && k < |ds| && ds[k].source == server
    ensures 2 * (k / 2) + 1 == k
  {
  }

  lemma ServedCompletes(signed: bool, server: SockAddr, turns: seq<Turn>, id: byte, sends: seq<Sent>,
                        reports: seq<M.Report>, j: nat)
    requires AllServed(signed, server, turns, id, sends, reports) && 2 * j + 1 < |TurnsFor(turns, id)|
    ensures Completes(turns, id, TurnsFor(turns, id)[2 * j + 1], reports)
  {
    var ts := TurnsFor(turns, id);
    assert Served(signed, server, turns, id, sends, reports[j], j, ts[2 * j], ts[2 * j + 1]);
    assert reports[j].second == M.Message(|Handed(turns[..ts[2 * j + 1]])|, RM.Decimal(id));
  }

  /** And no reply is missed: whatever turn handed over a reply of the server, its message is the second half of a
      reported pair. */
  lemma EveryReplyIsReported(signed: bool, server: SockAddr, turns: seq<Turn>, history: seq<Arrival>, id: byte,
                             start: int, duration: nat, schedule: seq<M.Action>,
                             ds: seq<Datagram>, s: M.State, key: string, reports: seq<M.Report>, reply: nat)
    requires history == Arrivals(turns) && !Broken(signed, server, history)
    requires ds == TakenFor(signed, history, id)
    requires s == M.Run(M.Init(start, duration), schedule)
    requires key == RM.Decimal(id) && reports == P.ReportsFor(s.reports, key)
    requires Alternates(server, ds) && AgreeOn(signed, turns, id)
    requires s.rpc.Idle? && P.Unexpired(s.log, key) && Follows(turns, s.arrived)
    requires reply < |turns| && turns[reply].handled == Some(id)
    requires turns[reply].arrival.Came? && turns[reply].arrival.source == server
    ensures Completes(turns, id, reply, reports)
  {
    var attempts := Attempts(signed, server, history);
    RepliesReachTheirRequester(signed, server, turns, history, id, start, duration, schedule, ds, attempts, s, key,
                               reports);
    AgreedAligned(signed, turns, id);
    var j := ReplyPosition(signed, server, turns, id, ds, P.MessagesFor(Handed(turns), key), reply);
    ServedCompletes(signed, server, turns, id, SendsFor(attempts, id), reports, j);
  }

  // ---- Why equal counts do not suffice ----

  /** A datagram that the proxy takes whole when plain char is unsigned. */
  predicate WholeFor(d: Packet, id: byte) {
    |d| >= 4 && |d| == DeclaredLength(d) && d[1] == id
  }

  /** The proxy misses x's packet, the library drops c's, both take the server's reply. */
  function CrossedTurns(x: SockAddr, c: SockAddr, server: SockAddr, id: byte, request: Packet, reply: Packet)
    : seq<Turn>
  {
    [Turn(Came(request, x, true, false), Some(id)), Turn(Came(request, c, false, false), None),
     Turn(Came(reply, server, false, false), Some(id))]
  }

  lemma TakenAppend(signed: bool, history: seq<Arrival>, a: Arrival, id: byte)
    ensures TakenFor(signed, history + [a], id)
            == if TakesFor(signed, a, id)
               then TakenFor(signed, history, id) + [Datagram(Accepted(signed, a).value, a.source)]
               else TakenFor(signed, history, id)
  {
    assert (history + [a])[..|history|] == history;
  }

  lemma ThreeArrivals(a: Turn, b: Turn, c: Turn)
    ensures Arrivals([a, b, c]) == [a.arrival, b.arrival, c.arrival]
  {
    assert [a, b, c][..2] == [a, b] && [a, b][..1] == [a] && [a][..0] == [];
    assert Arrivals([a]) == [a.arrival];
    assert Arrivals([a, b]) == [a.arrival, b.arrival];
  }

  lemma CrossedTaken(x: SockAddr, c: SockAddr, server: SockAddr, id: byte, request: Packet, reply: Packet)
    requires WholeFor(request, id) && WholeFor(reply, id)
    ensures var turns := CrossedTurns(x, c, server, id, request, reply);
            var history := [turns[0].arrival, turns[1].arrival, turns[2].arrival];
            && Accepted(false, history[0]) == None
            && Accepted(false, history[1]) == Some(request) && Accepted(false, history[2]) == Some(reply)
            && TakenFor(false, history, id) == [Datagram(request, c), Datagram(reply, server)]
  {
    var turns := CrossedTurns(x, c, server, id, request, reply);
    var a, b, d := turns[0].arrival, turns[1].arrival, turns[2].arrival;
    WholePacketIsTakenExactly(false, request, c);
    WholePacketIsTakenExactly(false, reply, server);
    TakenAppend(false, [], a, id);
    TakenAppend(false, [a], b, id);
    TakenAppend(false, [a, b], d, id);
    assert [] + [a] == [a] && [a] + [b] == [a, b] && [a, b] + [d] == [a, b, d];
  }

  lemma CrossedHistory(x: SockAddr, c: SockAddr, server: SockAddr, id: byte, request: Packet, reply: Packet)
    requires WholeFor(request, id) && WholeFor(reply, id)
    ensures var turns := CrossedTurns(x, c, server, id, request, reply);
            var history := [turns[0].arrival, turns[1].arrival, turns[2].arrival];
            && Arrivals(turns) == history
            && TakenFor(false, history, id) == [Datagram(request, c), Datagram(reply, server)]
            && !Broken(false, server, history)
  {
    var turns := CrossedTurns(x, c, server, id, request, reply);
    var history := [turns[0].arrival, turns[1].arrival, turns[2].arrival];
    ThreeArrivals(turns[0], turns[1], turns[2]);
    CrossedTaken(x, c, server, id, request, reply);
    assert forall i: nat :: i < 3 ==> !ShortRead(false, server, history, i);
  }

  lemma CrossedHanded(x: SockAddr, c: SockAddr, server: SockAddr, id: byte, request: Packet, reply: Packet)
    ensures Handed(CrossedTurns(x, c, server, id, request, reply))
            == [M.Message(0, RM.Decimal(id)), M.Message(1, RM.Decimal(id))]
  {
    var turns := CrossedTurns(x, c, server, id, request, reply);
    assert turns[..2] == [turns[0], turns[1]] && turns[..2][..1] == [turns[0]] && [turns[0]][..0] == [];
    assert Handed([turns[0]]) == [M.Message(0, RM.Decimal(id))] && Handed(turns[..2]) == Handed([turns[0]]);
  }

  /** Two messages of a key handled one after the other are reported as a pair. */
  lemma TwoAlone(start: int, duration: nat, key: string, m0: M.Message, m1: M.Message)
    requires m0 == M.Message(0, key) && m1 == M.Message(1, key)
    ensures var s := M.Run(M.Init(start, duration), C.Alone(key) + C.Alone(key));
            && s.rpc.Idle? && P.Unexpired(s.log, key) && s.arrived == [m0, m1]
            && P.MessagesFor(s.arrived, key) == [m0, m1] && P.ReportsFor(s.reports, key) == [M.Report(m0, m1)]
  {
    var s0, r := M.Init(start, duration), M.Report(m0, m1);
    C.StoreAlone(s0, key);
    C.PairAlone(M.Run(s0, C.Alone(key)), key);
    M.RunConcat(s0, C.Alone(key), C.Alone(key));
    assert M.Run(s0, C.Alone(key) + C.Alone(key)).reports == [] + [r];
    P.ReportsAppend([], r, key);
    P.MessagesAppend([], m0, key);
    P.MessagesAppend([m0], m1, key);
    assert [] + [r] == [r] && [] + [m0] == [m0] && [m0] + [m1] == [m0, m1];
  }

  /** The proxy's side of these turns: the reply goes to c. */
  lemma CrossedSends(x: SockAddr, c: SockAddr, server: SockAddr, id: byte, request: Packet, reply: Packet,
                     history: seq<Arrival>, ds: seq<Datagram>)
    requires WholeFor(request, id) && WholeFor(reply, id) && c != server
    requires history == Arrivals(CrossedTurns(x, c, server, id, request, reply)) && ds == TakenFor(false, history, id)
    ensures !Broken(false, server, history) && |ds| == 2 && Alternates(server, ds)
    ensures var sends := SendsFor(Attempts(false, server, history), id); |sends| == 2 && sends[1] == Sent(reply, c)
  {
    CrossedHistory(x, c, server, id, request, reply);
    AttemptsAddressedBack(false, server, history, id);
    assert DestOf(server, ds, 1) == c;
  }

  /** A run in which the proxy took as many packets of the identifier as the handler received messages of it, requests
      and replies alternate, and the one report pairs x's request with the reply that goes to c. */
  lemma EqualCountsDoNotSuffice(x: SockAddr, c: SockAddr, server: SockAddr, id: byte, request: Packet, reply: Packet,
                                start: int, duration: nat, turns: seq<Turn>, history: seq<Arrival>, key: string,
                                m0: M.Message, m1: M.Message)
    requires WholeFor(request, id) && WholeFor(reply, id) && x != c && x != server && c != server
    requires turns == CrossedTurns(x, c, server, id, request, reply) && history == Arrivals(turns)
    requires key == RM.Decimal(id) && m0 == M.Message(0, key) && m1 == M.Message(1, key)
    ensures var ds, s := TakenFor(false, history, id), M.Run(M.Init(start, duration), C.Alone(key) + C.Alone(key));
            && !Broken(false, server, history) && Alternates(server, ds) && Matches(s, key, ds)
            && Follows(turns, s.arrived) && P.ReportsFor(s.reports, key) == [M.Report(m0, m1)]
    ensures turns[0].arrival.source == x && turns[0].handled == Some(id) && Handed(turns) == [m0, m1]
    ensures var sends := SendsFor(Attempts(false, server, history), id); |sends| == 2 && sends[1] == Sent(reply, c)
  {
    CrossedHanded(x, c, server, id, request, reply);
    CrossedSends(x, c, server, id, request, reply, history, TakenFor(false, history, id));
    TwoAlone(start, duration, key, m0, m1);
  }
}
