/**
 The two HTTP handlers that read the handler's state: the neighbor-state
 lookup of httpd/handler/neighbor_state_get.go and the route count of
 httpd/handler/rib_count_get.go, which projects every listed destination back
 to (prefix, AS path, next hop, age) before answering with their number.
 */
module Handlers {
  import opened Common
  import opened Strings
  import opened Decimal
  import opened Converting
  import opened Api
  import opened Server

  const STATUS_OK: int := 200
  const STATUS_BAD_REQUEST: int := 400
  const NEIGHBOR_NOT_FOUND: string := "State by specified neighborAddress not found"

  datatype Body = StateJson(state: PeerState) | Text(text: string) | CountJson(count: nat)

  datatype Response = Response(status: int, body: Body)

  datatype LookupResult = Found(state: PeerState) | NotFound

  /** The table lookup the neighbor handler performs; it reads the table only. */
  function Lookup(states: map<string, PeerState>, addr: string): (r: LookupResult)
    ensures r.Found? <==> addr in states
    ensures r.Found? ==> r.state == states[addr]
  {
    if addr in states then Found(states[addr]) else NotFound
  }

  /** `NeighborStateGet`: the stored row with status 200, or status 400 and the not-found text. */
  function NeighborStateGet(states: map<string, PeerState>, addr: string): (r: Response)
    ensures addr in states ==> r == Response(STATUS_OK, StateJson(states[addr]))
    ensures addr !in states ==> r == Response(STATUS_BAD_REQUEST, Text(NEIGHBOR_NOT_FOUND))
  {
    match Lookup(states, addr)
    case Found(state) => Response(STATUS_OK, StateJson(state))
    case NotFound => Response(STATUS_BAD_REQUEST, Text(NEIGHBOR_NOT_FOUND))
  }

  /** Right after `New`, the configured neighbor is found at the zero row and nobody else is. */
  lemma LookupAfterNew(configuration: Configuration, addr: string)
    ensures Lookup(New(configuration).states, addr) ==
      if addr == configuration.neighbor.neighborAddress then Found(PeerState("", 0)) else NotFound
  {
  }

  /** After a notification for the configured neighbor, the lookup returns the reported state and time. */
  lemma LookupAfterApply(configuration: Configuration, state: ReportedState, ts: int)
    ensures var addr := configuration.neighbor.neighborAddress;
      Lookup(ApplyNeighborState(New(configuration).states, PeerNotification(addr, state), ts), addr)
      == Found(PeerState(StateName(state), ts))
  {
  }

  /**
   A neighbor that was never configured stays not found, whatever sequence of
   peer notifications and update messages the loop processes.
   */
  lemma NeverConfiguredNotFound(configuration: Configuration, events: seq<Event>, addr: string)
    requires addr != configuration.neighbor.neighborAddress
    ensures NeighborStateGet(Run(New(configuration), events).handler.states, addr)
      == Response(STATUS_BAD_REQUEST, Text(NEIGHBOR_NOT_FOUND))
  {
  }

  /** After a run from `New`, the configured neighbor shows the last notification for it, if any. */
  lemma ConfiguredShowsLastReport(configuration: Configuration, events: seq<Event>)
    ensures var addr := configuration.neighbor.neighborAddress;
      Lookup(Run(New(configuration), events).handler.states, addr) ==
      match LastReport(events, addr)
      case Some(p) => Found(p)
      case None => Found(PeerState("", 0))
  {
    RunLastReportWins(New(configuration), events, configuration.neighbor.neighborAddress);
  }

  /** The projection of one destination, as the handler builds it. */
  datatype Announcement = Announcement(prefix: string, asPath: string, nextHop: string, age: int)

  /** The fields the attribute loop fills in. */
  datatype Projected = Projected(nextHop: string, asPath: string)

  /** Every AS_PATH attribute that decodes has a first segment (the handler reads it unguarded). */
  predicate AsPathsHaveSegments(attrs: seq<Attribute>) {
    forall i :: 0 <= i < |attrs| && attrs[i].AsPath? ==> |attrs[i].segments| > 0
  }

  /** What the handler can project without failing: a first path whose AS_PATH attributes have a segment. */
  predicate Projectable(d: Destination) {
    |d.paths| > 0 && AsPathsHaveSegments(d.paths[0].pattrs)
  }

  /** The next hop an attribute yields: its type URL names NEXT_HOP and its payload decodes. */
  function DecodedNextHop(a: Attribute): Option<string> {
    if TypeUrl(a) == NEXT_HOP_TYPE_URL then
      (match a case NextHop(nh) => Some(nh) case _ => None)
    else None
  }

  /** The AS-path text an attribute yields: its type URL names AS_PATH and its payload decodes. */
  function DecodedAsPath(a: Attribute): Option<string>
    requires a.AsPath? ==> |a.segments| > 0
  {
    if TypeUrl(a) == AS_PATH_TYPE_URL then
      (match a case AsPath(segments) => Some(NumbersToString(segments[0].numbers, " ")) case _ => None)
    else None
  }

  /**
   One turn of the attribute loop: an attribute whose type URL names NEXT_HOP
   and whose payload decodes sets the next hop; one naming AS_PATH that decodes
   sets the AS path to its first segment's numbers joined by spaces; anything
   else is skipped. (The type URLs differ, so at most one field changes, as
   with the handler's if / else-if.)
   */
  function ApplyAttribute(a: Attribute, p: Projected): (r: Projected)
    requires a.AsPath? ==> |a.segments| > 0
    ensures a.NextHop? ==> r == p.(nextHop := a.nextHop)
    ensures a.AsPath? ==> r == p.(asPath := NumbersToString(a.segments[0].numbers, " "))
    ensures a.Origin? || a.Opaque? ==> r == p
  {
    TypeUrlsDistinct();
    Projected(
      match DecodedNextHop(a) case Some(nh) => nh case None => p.nextHop,
      match DecodedAsPath(a) case Some(text) => text case None => p.asPath)
  }

  /** The attribute whose decoded next hop is the last one in `attrs`. */
  predicate LastNextHopAt(attrs: seq<Attribute>, i: int) {
    0 <= i < |attrs| && DecodedNextHop(attrs[i]).Some? &&
    forall j :: i < j < |attrs| ==> DecodedNextHop(attrs[j]).None?
  }

  /** The attribute whose decoded AS path is the last one in `attrs`. */
  predicate LastAsPathAt(attrs: seq<Attribute>, i: int)
    requires AsPathsHaveSegments(attrs)
  {
    0 <= i < |attrs| && DecodedAsPath(attrs[i]).Some? &&
    forall j :: i < j < |attrs| ==> DecodedAsPath(attrs[j]).None?
  }

  /**
   Last wins for the next hop: `r` holds the next hop of the last attribute of
   `attrs` that yields one, or `p`'s when none does.
   */
  ghost predicate NextHopLastWins(attrs: seq<Attribute>, p: Projected, r: Projected) {
    && ((forall i :: 0 <= i < |attrs| ==> DecodedNextHop(attrs[i]).None?) ==> r.nextHop == p.nextHop)
    && (forall i :: LastNextHopAt(attrs, i) ==> r.nextHop == DecodedNextHop(attrs[i]).value)
  }

  /**
   Last wins for the AS path: `r` holds the AS path of the last attribute of
   `attrs` that yields one, or `p`'s when none does.
   */
  ghost predicate AsPathLastWins(attrs: seq<Attribute>, p: Projected, r: Projected)
    requires AsPathsHaveSegments(attrs)
  {
    && ((forall i :: 0 <= i < |attrs| ==> DecodedAsPath(attrs[i]).None?) ==> r.asPath == p.asPath)
    && (forall i :: LastAsPathAt(attrs, i) ==> r.asPath == DecodedAsPath(attrs[i]).value)
  }

  /** The attribute loop over `attrs`, in order, from `p`: for each field, the last attribute yielding it wins. */
  function ProjectAttributes(attrs: seq<Attribute>, p: Projected): (r: Projected)
    requires AsPathsHaveSegments(attrs)
    ensures NextHopLastWins(attrs, p, r)
    ensures AsPathLastWins(attrs, p, r)
    decreases |attrs|
  {
    if attrs == [] then p
    else
      var r := ProjectAttributes(attrs[1..], ApplyAttribute(attrs[0], p));
      NextHopLastWinsStep(attrs, p, r);
      AsPathLastWinsStep(attrs, p, r);
      r
  }

  /** Last wins for the next hop survives putting one more attribute in front. */
  lemma NextHopLastWinsStep(attrs: seq<Attribute>, p: Projected, r: Projected)
    requires attrs != [] && AsPathsHaveSegments(attrs)
    requires NextHopLastWins(attrs[1..], ApplyAttribute(attrs[0], p), r)
    ensures NextHopLastWins(attrs, p, r)
  {
    var rest := attrs[1..];
    forall i | LastNextHopAt(attrs, i)
      ensures r.nextHop == DecodedNextHop(attrs[i]).value
    {
      if i == 0 {
        assert forall k :: 0 <= k < |rest| ==> rest[k] == attrs[k + 1];
      } else {
        assert LastNextHopAt(rest, i - 1);
      }
    }
    if forall i :: 0 <= i < |attrs| ==> DecodedNextHop(attrs[i]).None? {
      assert forall k :: 0 <= k < |rest| ==> rest[k] == attrs[k + 1];
    }
  }

  /** Last wins for the AS path survives putting one more attribute in front. */
  lemma AsPathLastWinsStep(attrs: seq<Attribute>, p: Projected, r: Projected)
    requires attrs != [] && AsPathsHaveSegments(attrs)
    requires AsPathLastWins(attrs[1..], ApplyAttribute(attrs[0], p), r)
    ensures AsPathLastWins(attrs, p, r)
  {
    var rest := attrs[1..];
    forall i | LastAsPathAt(attrs, i)
      ensures r.asPath == DecodedAsPath(attrs[i]).value
    {
      if i == 0 {
        assert forall k :: 0 <= k < |rest| ==> rest[k] == attrs[k + 1];
      } else {
        assert LastAsPathAt(rest, i - 1);
      }
    }
    if forall i :: 0 <= i < |attrs| ==> DecodedAsPath(attrs[i]).None? {
      assert forall k :: 0 <= k < |rest| ==> rest[k] == attrs[k + 1];
    }
  }

  /**
   The projection of one destination, as the handler's loop body computes it:
   the destination's prefix; the age of the first path when it is the sole
   path, else 0; the next hop and the AS path the attribute loop leaves over
   the first path's attributes, starting from "" (so the last attribute
   yielding each wins).
   */
  function Project(d: Destination): (r: Announcement)
    requires Projectable(d)
    ensures r.prefix == d.prefix
    ensures |d.paths| == 1 ==> r.age == d.paths[0].ageSeconds
    ensures |d.paths| != 1 ==> r.age == 0
    ensures Projected(r.nextHop, r.asPath) == ProjectAttributes(d.paths[0].pattrs, Projected("", ""))
  {
    var fields := ProjectAttributes(d.paths[0].pattrs, Projected("", ""));
    Announcement(d.prefix, fields.asPath, fields.nextHop, if |d.paths| == 1 then d.paths[0].ageSeconds else 0)
  }

  /**
   What a projection holds beyond its prefix and age: the next hop and the AS
   path of the last attribute of the first path that yields one, or "" when
   none does.
   */
  lemma ProjectFields(d: Destination)
    requires Projectable(d)
    ensures NextHopLastWins(d.paths[0].pattrs, Projected("", ""), Projected(Project(d).nextHop, Project(d).asPath))
    ensures AsPathLastWins(d.paths[0].pattrs, Projected("", ""), Projected(Project(d).nextHop, Project(d).asPath))
  {
  }

  /**
   `RibCountGet`: list the global table, project every destination in order,
   and answer 200 with the number of projections. A failed listing counts 0.
   */
  method RibCountGet(visited: seq<Destination>, listErr: Option<Error>)
    returns (response: Response, announcements: seq<Announcement>)
    requires listErr.None? ==> forall i :: 0 <= i < |visited| ==> Projectable(visited[i])
    ensures |announcements| == |GetPaths(visited, listErr)|
    ensures forall i :: 0 <= i < |announcements| ==> announcements[i] == Project(GetPaths(visited, listErr)[i])
    ensures response == Response(STATUS_OK, CountJson(|announcements|))
    ensures listErr.None? ==> response.body.count == |visited|
    ensures listErr.Some? ==> response.body.count == 0
  {
    var paths := GetPaths(visited, listErr);
    announcements := ProjectAll(paths);
    response := Response(STATUS_OK, CountJson(|announcements|));
  }

  /** The handler's loop over the listed destinations: one projection each, in order. */
  method ProjectAll(paths: seq<Destination>) returns (announcements: seq<Announcement>)
    requires forall i :: 0 <= i < |paths| ==> Projectable(paths[i])
    ensures |announcements| == |paths|
    ensures forall i :: 0 <= i < |paths| ==> announcements[i] == Project(paths[i])
  {
    announcements := [];
    var i := 0;
    while i < |paths|
      invariant 0 <= i <= |paths|
      invariant |announcements| == i
      invariant forall k :: 0 <= k < i ==> announcements[k] == Project(paths[k])
    {
      announcements := announcements + [Project(paths[i])];
      i := i + 1;
    }
  }

  /**
   Round trip: the destination the engine lists for an announced path projects
   back to the announced next hop and to the normalised AS path (the tokens of
   the AS-path text, converted and rendered again with single spaces).
   */
  lemma AnnounceProjectsBack(msg: UpdateMessage, outcome: EngineOutcome, prefix: string, age: int)
    requires Count(msg.prefix, '/') == 1
    ensures var call := Announce(msg, outcome).call.value;
      var d := Destination(prefix, [ListedPath(age, call.path.pattrs)]);
      && Projectable(d)
      && Project(d) == Announcement(
        prefix,
        NumbersToString(StringsToNumbers(Split(msg.asPath, ' ')), " "),
        msg.nextHop,
        age)
  {
    var d := Destination(prefix, [ListedPath(age, AnnounceAttributes(msg))]);
    ProjectAnnounceAttributes(msg);
    assert Project(d).nextHop == msg.nextHop;
  }

  /** The attribute loop over what an announce submits leaves its next hop and its normalised AS path. */
  lemma ProjectAnnounceAttributes(msg: UpdateMessage)
    ensures AsPathsHaveSegments(AnnounceAttributes(msg))
    ensures ProjectAttributes(AnnounceAttributes(msg), Projected("", "")) ==
      Projected(msg.nextHop, NumbersToString(StringsToNumbers(Split(msg.asPath, ' ')), " "))
  {
    var attrs := AnnounceAttributes(msg);
    ProjectThree(attrs[0], attrs[1], attrs[2], Projected("", ""));
    assert attrs == [attrs[0], attrs[1], attrs[2]];
  }

  /** The attribute loop over three attributes is three turns, in order. */
  lemma ProjectThree(a: Attribute, b: Attribute, c: Attribute, p: Projected)
    requires a.AsPath? ==> |a.segments| > 0
    requires b.AsPath? ==> |b.segments| > 0
    requires c.AsPath? ==> |c.segments| > 0
    ensures AsPathsHaveSegments([a, b, c])
      && ProjectAttributes([a, b, c], p) == ApplyAttribute(c, ApplyAttribute(b, ApplyAttribute(a, p)))
  {
    var q1 := ApplyAttribute(a, p);
    var q2 := ApplyAttribute(b, q1);
    ProjectCons(c, [], q2);
    assert [c] + [] == [c];
    ProjectCons(b, [c], q1);
    assert [b] + [c] == [b, c];
    ProjectCons(a, [b, c], p);
    assert [a] + [b, c] == [a, b, c];
  }

  /** One turn of the attribute loop, then the rest of it. */
  lemma ProjectCons(a: Attribute, rest: seq<Attribute>, p: Projected)
    requires a.AsPath? ==> |a.segments| > 0
    requires AsPathsHaveSegments(rest)
    ensures AsPathsHaveSegments([a] + rest)
      && ProjectAttributes([a] + rest, p) == ProjectAttributes(rest, ApplyAttribute(a, p))
  {
    var attrs := [a] + rest;
    assert attrs[0] == a && attrs[1..] == rest;
    assert forall i :: 1 <= i < |attrs| ==> attrs[i] == rest[i - 1];
  }

  /**
   When the AS-path text is single-space-separated canonical decimals up to
   2^32-1, the projection gives back exactly the text announced.
   */
  lemma AnnounceProjectsBackExactly(msg: UpdateMessage, outcome: EngineOutcome, prefix: string, age: int)
    requires Count(msg.prefix, '/') == 1
    requires forall t :: t in Split(msg.asPath, ' ') ==> Canonical(t) && Value(t) <= UINT32_MAX
    ensures var call := Announce(msg, outcome).call.value;
      var d := Destination(prefix, [ListedPath(age, call.path.pattrs)]);
      Projectable(d) && Project(d) == Announcement(prefix, msg.asPath, msg.nextHop, age)
  {
    AnnounceProjectsBack(msg, outcome, prefix, age);
    NormaliseCanonical(msg.asPath);
  }
}
