/**
 The message handler of bgp/server.go: the update-message codec (announce and
 withdraw build an NLRI and an ordered attribute list and hand it to the
 engine), dispatch on the update type, the session-state table keyed by
 neighbor address, and the listener loop as a fold over the events it receives.
 The engine is not modelled: each update carries the engine's answer to its
 call, and each peer notification carries the clock reading taken when the
 loop processes it.
 */
module Server {
  import opened Common
  import opened Strings
  import opened Decimal
  import opened Converting
  import opened Api
  import Uuid

  type UpdateType = int

  const ANNOUNCE: UpdateType := 0
  const WITHDRAW: UpdateType := 1

  /** A route-update request: the fields a client submits. */
  datatype UpdateMessage = UpdateMessage(
    prefix: string,
    nextHop: string,
    updateType: UpdateType,
    asPath: string,
    uuid: string)

  /** A session state as the engine reports it in a peer notification. */
  datatype ReportedState = Unknown | Idle | Connect | Active | OpenSent | OpenConfirm | Established

  /** The name the engine's enum renders to, which is what the table stores. */
  function StateName(s: ReportedState): string {
    match s
    case Unknown => "UNKNOWN"
    case Idle => "IDLE"
    case Connect => "CONNECT"
    case Active => "ACTIVE"
    case OpenSent => "OPENSENT"
    case OpenConfirm => "OPENCONFIRM"
    case Established => "ESTABLISHED"
  }

  /** The reported state a stored name stands for, if any; the zero name "" stands for none. */
  function StateOfName(name: string): Option<ReportedState> {
    if name == "UNKNOWN" then Some(Unknown)
    else if name == "IDLE" then Some(Idle)
    else if name == "CONNECT" then Some(Connect)
    else if name == "ACTIVE" then Some(Active)
    else if name == "OPENSENT" then Some(OpenSent)
    else if name == "OPENCONFIRM" then Some(OpenConfirm)
    else if name == "ESTABLISHED" then Some(Established)
    else None
  }

  /** A stored name identifies the reported state, and is never the zero value "". */
  lemma StateNameRoundTrip(s: ReportedState)
    ensures StateOfName(StateName(s)) == Some(s)
    ensures StateName(s) != ""
  {
  }

  /** One row of the session table; the zero value is ("", 0). */
  datatype PeerState = PeerState(sessionState: string, ts: int)

  const ZERO_PEER_STATE: PeerState := PeerState("", 0)

  datatype Neighbor = Neighbor(neighborAddress: string, peerAs: uint32, localAs: uint32)

  datatype Configuration = Configuration(asNumber: uint32, routerId: string, neighbor: Neighbor)

  /** The handler's state that the model keeps: its configuration and the session table. */
  datatype MessageHandler = MessageHandler(configuration: Configuration, states: map<string, PeerState>)

  /** `New`: the table holds exactly the configured neighbor, at the zero state. */
  function New(configuration: Configuration): (mh: MessageHandler)
    ensures mh.configuration == configuration
    ensures mh.states.Keys == {configuration.neighbor.neighborAddress}
    ensures mh.states[configuration.neighbor.neighborAddress] == PeerState("", 0)
  {
    MessageHandler(configuration, map[configuration.neighbor.neighborAddress := ZERO_PEER_STATE])
  }

  /** A peer-state notification from the engine. */
  datatype PeerNotification = PeerNotification(neighborAddress: string, sessionState: ReportedState)

  /**
   `applyNeighborState`: a notification for a neighbor already in the table
   replaces its row with the reported state and the time `ts`; any other
   notification is ignored, so no key is ever added.
   */
  function ApplyNeighborState(states: map<string, PeerState>, n: PeerNotification, ts: int): (r: map<string, PeerState>)
    ensures r.Keys == states.Keys
    ensures n.neighborAddress in states ==> r[n.neighborAddress] == PeerState(StateName(n.sessionState), ts)
    ensures forall a :: a in states && a != n.neighborAddress ==> r[a] == states[a]
    ensures n.neighborAddress !in states ==> r == states
  {
    if n.neighborAddress in states then
      states[n.neighborAddress := PeerState(StateName(n.sessionState), ts)]
    else
      states
  }

  /** What the engine answered a path call: AddPath's optional response UUID bytes, and an optional error. */
  datatype EngineOutcome = EngineOutcome(responseUuid: Option<seq<byte>>, err: Option<Error>)

  /**
   The result of handling one update: the engine call made (if any), the id
   returned to the caller ("" for none) and the error returned (if any).
   */
  datatype HandleResult = HandleResult(call: Option<EngineCall>, id: string, err: Option<Error>)

  const ANNOUNCE_PREFIX_ERROR: Error := Error("announce: wrong prefix format")
  const WITHDRAW_PREFIX_ERROR: Error := Error("withdraw: wrong prefix format")

  function UnsupportedError(t: UpdateType): Error {
    Error("handle: update type " + FormatInt(t) + " isn't supported")
  }

  /**
   The NLRI of a prefix: splitting on "/" must give exactly two parts, the
   network and the prefix length (converted leniently). Otherwise none.
   */
  function PrefixNlri(prefix: string): (r: Option<Nlri>)
    ensures r.Some? <==> Count(prefix, '/') == 1
    ensures r.Some? ==>
      var k := |r.value.prefix|;
      && k < |prefix|
      && prefix[..k] == r.value.prefix
      && prefix[k] == '/'
      && '/' !in prefix[k + 1..]
      && r.value.prefixLen == ToUint32(prefix[k + 1..])
  {
    var parts := Split(prefix, '/');
    if |parts| != 2 then None
    else
      assert Join(parts, "/") == parts[0] + "/" + parts[1];
      assert prefix[..|parts[0]|] == parts[0];
      assert prefix[|parts[0]| + 1..] == parts[1];
      Some(Nlri(parts[0], ToUint32(parts[1])))
  }

  /** When the prefix-length text is a canonical decimal, the NLRI renders back to the prefix. */
  lemma PrefixRoundTrip(prefix: string)
    requires Count(prefix, '/') == 1
    ensures PrefixNlri(prefix).Some?
    ensures var len := prefix[|PrefixNlri(prefix).value.prefix| + 1..];
      Canonical(len) && Value(len) <= UINT32_MAX ==>
      PrefixNlri(prefix).value.prefix + "/" + Format(PrefixNlri(prefix).value.prefixLen) == prefix
  {
    var nlri := PrefixNlri(prefix).value;
    var k := |nlri.prefix|;
    var len := prefix[k + 1..];
    if Canonical(len) && Value(len) <= UINT32_MAX {
      FormatValue(len);
      assert prefix == prefix[..k] + [prefix[k]] + len;
    }
  }

  /** The attributes an announce submits, in order: ORIGIN, NEXT_HOP, AS_PATH. */
  function AnnounceAttributes(msg: UpdateMessage): seq<Attribute> {
    [Origin(ORIGIN_IGP),
     NextHop(msg.nextHop),
     AsPath([AsSegment(AS_SEQUENCE, StringsToNumbers(Split(msg.asPath, ' ')))])]
  }

  /** The attributes a withdraw submits, in order: ORIGIN, NEXT_HOP. */
  function WithdrawAttributes(msg: UpdateMessage): seq<Attribute> {
    [Origin(ORIGIN_IGP), NextHop(msg.nextHop)]
  }

  /**
   `announce`: a prefix that does not split into two parts is refused before
   any engine call. Otherwise the path goes to the global table as IPv4
   unicast, and the id returned is the response's UUID when the response is
   present and holds sixteen bytes (the engine's error is then dropped);
   otherwise the id is "" and the engine's error, possibly none, is returned.
   */
  function Announce(msg: UpdateMessage, outcome: EngineOutcome): (r: HandleResult)
    ensures Count(msg.prefix, '/') != 1 ==> r == HandleResult(None, "", Some(ANNOUNCE_PREFIX_ERROR))
    ensures Count(msg.prefix, '/') == 1 ==>
      && r.call.Some?
      && r.call.value.AddPath?
      && r.call.value.table == Global
      && r.call.value.path.family == IPV4_UNICAST
      && r.call.value.path.nlri == PrefixNlri(msg.prefix).value
      && r.call.value.path.pattrs == AnnounceAttributes(msg)
    ensures r.id != "" <==>
      Count(msg.prefix, '/') == 1 && outcome.responseUuid.Some? && |outcome.responseUuid.value| == 16
    ensures r.id != "" ==> r.err.None? && |r.id| == 36
    ensures r.id != "" ==> r.id == Uuid.ToString(outcome.responseUuid.value)
    ensures Count(msg.prefix, '/') == 1 && r.id == "" ==> r.err == outcome.err
  {
    match PrefixNlri(msg.prefix)
    case None => HandleResult(None, "", Some(ANNOUNCE_PREFIX_ERROR))
    case Some(nlri) =>
      var call := AddPath(Global, Path(IPV4_UNICAST, nlri, AnnounceAttributes(msg)));
      match outcome.responseUuid
      case Some(b) =>
        (match Uuid.FromBytes(b)
         case Some(id) => HandleResult(Some(call), Uuid.ToString(id), None)
         case None => HandleResult(Some(call), "", outcome.err))
      case None => HandleResult(Some(call), "", outcome.err)
  }

  /** The id an announce hands back is the engine's response UUID in text form: parsing it gives the bytes. */
  lemma AnnounceIdIsResponse(msg: UpdateMessage, outcome: EngineOutcome)
    requires Announce(msg, outcome).id != ""
    ensures |Announce(msg, outcome).id| == 36
    ensures Uuid.Parse(Announce(msg, outcome).id) == outcome.responseUuid.value
  {
    var b: Uuid.Uuid := outcome.responseUuid.value;
    Uuid.ToStringRoundTrip(b);
  }

  /** The result of `withdraw`: the engine call made, if any, and the error returned. */
  datatype WithdrawResult = WithdrawResult(call: Option<EngineCall>, err: Option<Error>)

  /**
   `withdraw`: the same prefix check as announce, then a delete from the global
   table with ORIGIN and NEXT_HOP only; the engine's error is returned as is.
   */
  function Withdraw(msg: UpdateMessage, outcome: EngineOutcome): (r: WithdrawResult)
    ensures Count(msg.prefix, '/') != 1 ==> r == WithdrawResult(None, Some(WITHDRAW_PREFIX_ERROR))
    ensures Count(msg.prefix, '/') == 1 ==>
      && r.call.Some?
      && r.call.value.DeletePath?
      && r.call.value.table == Global
      && r.call.value.path.family == IPV4_UNICAST
      && r.call.value.path.nlri == PrefixNlri(msg.prefix).value
      && r.call.value.path.pattrs == WithdrawAttributes(msg)
      && r.err == outcome.err
  {
    match PrefixNlri(msg.prefix)
    case None => WithdrawResult(None, Some(WITHDRAW_PREFIX_ERROR))
    case Some(nlri) =>
      WithdrawResult(Some(DeletePath(Global, Path(IPV4_UNICAST, nlri, WithdrawAttributes(msg)))), outcome.err)
  }

  /**
   `Handle` (and the identical unexported `handle`): dispatch on the update
   type. An announce returns announce's result unchanged; a withdraw returns
   "" with withdraw's error; any other type is refused without an engine call.
   */
  function Handle(msg: UpdateMessage, outcome: EngineOutcome): (r: HandleResult)
    ensures msg.updateType == ANNOUNCE ==> r == Announce(msg, outcome)
    ensures msg.updateType == WITHDRAW ==>
      r.id == "" && r.call == Withdraw(msg, outcome).call && r.err == Withdraw(msg, outcome).err
    ensures msg.updateType !in {ANNOUNCE, WITHDRAW} ==>
      r == HandleResult(None, "", Some(UnsupportedError(msg.updateType)))
  {
    if msg.updateType == ANNOUNCE then
      Announce(msg, outcome)
    else if msg.updateType == WITHDRAW then
      var w := Withdraw(msg, outcome);
      HandleResult(w.call, "", w.err)
    else
      HandleResult(None, "", Some(UnsupportedError(msg.updateType)))
  }

  /**
   A withdraw addresses the route an announce of the same message submitted:
   same table, family and NLRI, and the announce's attributes without AS_PATH.
   */
  lemma WithdrawMatchesAnnounce(msg: UpdateMessage, outcome: EngineOutcome, other: EngineOutcome)
    requires Count(msg.prefix, '/') == 1
    ensures var a := Announce(msg, outcome).call.value;
      var w := Withdraw(msg, other).call.value;
      && w.table == a.table
      && w.path.family == a.path.family
      && w.path.nlri == a.path.nlri
      && w.path.pattrs == a.path.pattrs[..2]
  {
  }

  /** A withdraw never hands an id back, whatever the engine answers. */
  lemma WithdrawHasNoId(msg: UpdateMessage, outcome: EngineOutcome)
    requires msg.updateType == WITHDRAW
    ensures Handle(msg, outcome).id == ""
    ensures Handle(msg, outcome).call.Some? ==> Handle(msg, outcome).call.value.path.pattrs == [Origin(ORIGIN_IGP), NextHop(msg.nextHop)]
  {
  }

  /** An empty AS-path text is announced as the one-number segment [0]. */
  lemma EmptyAsPathAnnouncesZero(msg: UpdateMessage)
    requires msg.asPath == ""
    ensures AnnounceAttributes(msg)[2] == AsPath([AsSegment(AS_SEQUENCE, [0])])
  {
    assert Split("", ' ') == [""];
    assert StringsToNumbers([""]) == [0];
  }

  /**
   `GetPaths`: the destinations the global-table listing visited, in order;
   when the listing fails the error is only logged and no destination at all
   is returned.
   */
  function GetPaths(visited: seq<Destination>, listErr: Option<Error>): (paths: seq<Destination>)
    ensures listErr.Some? ==> paths == []
    ensures listErr.None? ==> paths == visited
  {
    if listErr.Some? then [] else visited
  }

  /**
   One event reaching the listener loop, with what the environment supplies
   for it: the clock reading for a peer notification, the engine's answer for
   an update message.
   */
  datatype Event =
    | PeerStateChanged(notification: PeerNotification, ts: int)
    | UpdateReceived(msg: UpdateMessage, outcome: EngineOutcome)

  datatype StepResult = StepResult(handler: MessageHandler, handled: Option<HandleResult>)

  /**
   One iteration of `runMessageListener`: a peer notification updates the
   table; an update message is handled and leaves the table alone. The
   source only logs an error result and discards the id; the step records the
   result so that properties can speak of it.
   */
  function Step(mh: MessageHandler, e: Event): (r: StepResult)
    ensures r.handler.configuration == mh.configuration
    ensures r.handler.states.Keys == mh.states.Keys
    ensures e.UpdateReceived? ==> r.handler == mh && r.handled == Some(Handle(e.msg, e.outcome))
    ensures e.PeerStateChanged? ==>
      && r.handler.states == ApplyNeighborState(mh.states, e.notification, e.ts)
      && r.handled.None?
  {
    match e
    case PeerStateChanged(n, ts) =>
      StepResult(mh.(states := ApplyNeighborState(mh.states, n, ts)), None)
    case UpdateReceived(msg, outcome) =>
      StepResult(mh, Some(Handle(msg, outcome)))
  }

  datatype RunResult = RunResult(handler: MessageHandler, handled: seq<HandleResult>)

  /** The listener loop over a finite sequence of events, in order. */
  function Run(mh: MessageHandler, events: seq<Event>): (r: RunResult)
    ensures r.handler.configuration == mh.configuration
    ensures r.handler.states.Keys == mh.states.Keys
    decreases |events|
  {
    if events == [] then RunResult(mh, [])
    else
      var first := Step(mh, events[0]);
      var rest := Run(first.handler, events[1..]);
      var handled := match first.handled
        case Some(h) => [h] + rest.handled
        case None => rest.handled;
      RunResult(rest.handler, handled)
  }

  /** The update messages of an event sequence, in order, as handled. */
  function Updates(events: seq<Event>): seq<HandleResult>
    decreases |events|
  {
    if events == [] then []
    else
      var tail := Updates(events[1..]);
      match events[0]
      case UpdateReceived(msg, outcome) => [Handle(msg, outcome)] + tail
      case PeerStateChanged(_, _) => tail
  }

  /** The peer notifications of an event sequence, in order. */
  function PeerEvents(events: seq<Event>): seq<Event>
    decreases |events|
  {
    if events == [] then []
    else if events[0].PeerStateChanged? then [events[0]] + PeerEvents(events[1..])
    else PeerEvents(events[1..])
  }

  /**
   Every update message is handled once, in order, whatever happened to the
   earlier ones: a failed update never stops the loop.
   */
  lemma {:induction false} RunHandlesEveryUpdate(mh: MessageHandler, events: seq<Event>)
    ensures Run(mh, events).handled == Updates(events)
    decreases |events|
  {
    if events != [] {
      RunHandlesEveryUpdate(Step(mh, events[0]).handler, events[1..]);
    }
  }

  /** Update messages never touch the session table: only peer notifications matter. */
  lemma {:induction false} RunTableFromPeerEvents(mh: MessageHandler, events: seq<Event>)
    ensures Run(mh, events).handler == Run(mh, PeerEvents(events)).handler
    decreases |events|
  {
    if events != [] {
      var next := Step(mh, events[0]).handler;
      RunTableFromPeerEvents(next, events[1..]);
      if events[0].PeerStateChanged? {
        assert PeerEvents(events)[0] == events[0];
        assert PeerEvents(events)[1..] == PeerEvents(events[1..]);
      }
    }
  }

  /** The last notification for `addr` in an event sequence, as the row it writes. */
  function LastReport(events: seq<Event>, addr: string): Option<PeerState>
    decreases |events|
  {
    if events == [] then None
    else
      var e := events[|events| - 1];
      if e.PeerStateChanged? && e.notification.neighborAddress == addr then
        Some(PeerState(StateName(e.notification.sessionState), e.ts))
      else
        LastReport(events[..|events| - 1], addr)
  }

  /** Running `init` followed by one more event is one more step. */
  lemma {:induction false} RunSnoc(mh: MessageHandler, init: seq<Event>, e: Event)
    ensures Run(mh, init + [e]).handler == Step(Run(mh, init).handler, e).handler
    decreases |init|
  {
    if init == [] {
      assert init + [e] == [e];
    } else {
      assert (init + [e])[0] == init[0];
      assert (init + [e])[1..] == init[1..] + [e];
      RunSnoc(Step(mh, init[0]).handler, init[1..], e);
    }
  }

  /**
   For a configured neighbor, the row after a run is written by the last
   notification for it; with none, the row is unchanged.
   */
  lemma {:induction false} RunLastReportWins(mh: MessageHandler, events: seq<Event>, addr: string)
    requires addr in mh.states
    ensures Run(mh, events).handler.states[addr] ==
      match LastReport(events, addr)
      case Some(p) => p
      case None => mh.states[addr]
    decreases |events|
  {
    if events != [] {
      var init := events[..|events| - 1];
      var e := events[|events| - 1];
      assert events == init + [e];
      RunSnoc(mh, init, e);
      RunLastReportWins(mh, init, addr);
    }
  }
}
