# BGP route-injection adapter, modelled in Dafny

This project models the core of a small adapter that sits in front of an
embedded BGP engine. It covers:

- the update-message codec of `bgp/server.go`. An announce or withdraw
  request (prefix text, next hop, update type, AS-path text) becomes one
  engine call on the global IPv4-unicast table: an NLRI plus an ordered list
  of path attributes (ORIGIN IGP, NEXT_HOP and, for an announce, a single
  AS_SEQUENCE segment).
- dispatch on the update type, with its three error texts.
- the per-neighbor session-state table. `New` seeds it with the configured
  neighbor, and `applyNeighborState` updates only rows that already exist.
- the listener loop, modelled as a fold over the events it receives.
- the lenient decimal conversions of `bgp/converting_utils.go`.
- the two read-side HTTP handlers. `NeighborStateGet` looks up a row.
  `RibCountGet` projects every listed destination back to (prefix, AS path,
  next hop, age) and answers with their number.

The engine, the clock and the HTTP framework are not part of the model; they
become parameters:

- each update message carries the engine's answer to its call
  (`Server.EngineOutcome`);
- each peer notification carries the clock reading (`Server.Event`);
- the route listing is passed to `Handlers.RibCountGet` as the destinations
  visited plus an optional listing error.

An engine call is returned as data (`Api.EngineCall`), so contracts can say
exactly what the engine is asked to do.

Modules, one per file:

- `Common`: `Option`, `uint32`, `byte`, `Error`.
- `Strings`: Go's `strings.Split` with a one-character separator,
  `strings.Join`, `strings.Replace` with n = -1, and `strings.Trim`.
- `Decimal`: digit-string values, `fmt`'s `%d`, and `strconv.ParseUint(s, 10, 32)`
  as Go's left-to-right scan.
- `Converting`: `bgp/converting_utils.go`.
- `Uuid`: `uuid.FromBytes` and `UUID.String`.
- `Api`: the engine's API shapes.
- `Server`: `bgp/server.go`.
- `Handlers`: the two handlers.
- `Scenarios`: concrete announce, withdraw and peer-state runs.

Behaviours of the code worth knowing, all of which the model keeps:

- The row `New` creates for the configured neighbor is Go's zero
  `PeerState{}`, that is session state "" and timestamp 0, not "UNKNOWN".
- `announce` can return no id and no error at once, when AddPath answers
  with neither a usable response nor an error.
- A withdraw of a route that is not present returns whatever the engine
  reports. The adapter adds no idempotence of its own.
- `toUint32` does not always map a token with a non-digit to 0. Go's
  ParseUint reports the range error as soon as the digits read so far exceed
  2^32-1, before it reaches the non-digit, so "99999999999x" gives 4294967295.
- An empty AS-path text is announced as the segment [0], because
  `strings.Split("", " ")` yields one empty token. It therefore does not
  round-trip through the RIB projection.

## Model

| member | source | states |
|---|---|---|
| Decimal.ParseUint32 | bgp/converting_utils.go:9-12 | The result `strconv.ParseUint(value, 10, 32)` produces. An empty token is a syntax error. A digit string gives its value, or a range error above 2^32-1. Otherwise the first non-digit gives a syntax error, unless the digits before it already exceed 2^32-1, which gives a range error. |
| Decimal.Format | bgp/converting_utils.go:41-43 | `fmt`'s rendering of a number is a canonical decimal (non-empty, digits only, no leading zero) that denotes exactly that number. |
| Decimal.FormatValue | bgp/converting_utils.go:41-43 | The rendering is the inverse of the digit-string value on canonical decimals. |
| Converting.ToUint32 | bgp/converting_utils.go:9-17 | The lenient conversion: an empty token gives 0; a digit string up to 2^32-1 gives its value; a larger one gives 4294967295; with a non-digit, the result is 0 or 4294967295 depending on the digits before the first non-digit. |
| Converting.ToUint32Format | bgp/converting_utils.go:9-17 | Every `uint32` survives rendering followed by conversion. |
| Converting.ToUint32NonDigit | bgp/converting_utils.go:9-17 | A token whose first non-digit comes after at most nine digits converts to 0, as a parse failure. |
| Converting.StringsToNumbers | bgp/converting_utils.go:19-39 | Each token is converted on its own, keeping order and count. |
| Converting.NumbersToString | bgp/converting_utils.go:41-43 | Printing, replacing spaces and trimming brackets gives the canonical decimals joined by the delimiter, for every delimiter, including ones that hold brackets. |
| Converting.NumbersToStringEmpty | bgp/converting_utils.go:41-43 | The empty list renders as "". |
| Converting.NumbersRoundTrip | bgp/converting_utils.go:19-43 | For a non-empty list, rendering with spaces, splitting on spaces and converting gives back the list. |
| Converting.EmptyNumbersRoundTrip | bgp/converting_utils.go:19-43 | The empty list does not round-trip: it comes back as [0]. |
| Converting.NormaliseCanonical | bgp/converting_utils.go:19-43 | Splitting, converting and rendering again is the identity on text whose tokens are canonical decimals up to 2^32-1. |
| Strings.Split | bgp/server.go:268-269 | `strings.Split` on one character: one more part than separators, no part contains the separator, and joining the parts with it gives back the text. |
| Strings.SplitJoin | bgp/server.go:273 | Splitting the join of separator-free parts gives back the parts. |
| Strings.SplitTwo | bgp/server.go:268-271 | The text splits into exactly two parts iff it contains the separator exactly once. |
| Uuid.FromBytes | bgp/server.go:311 | `uuid.FromBytes` succeeds iff given exactly sixteen bytes, and then keeps them. |
| Uuid.ToString | bgp/server.go:312 | The id text is 36 characters long, with dashes at positions 8, 13, 18 and 23 and lower-case hex digits elsewhere. |
| Uuid.ToStringRoundTrip | bgp/server.go:311-312 | The id text determines the UUID: reading its hex digits back gives the sixteen bytes. |
| Server.StateNameRoundTrip | bgp/server.go:243-247 | The stored name identifies the reported session state, and it is never the zero name "". |
| Server.New | bgp/server.go:87-101 | The table holds exactly the configured neighbor, at the zero row ("", 0). |
| Server.ApplyNeighborState | bgp/server.go:240-251 | A notification for a known neighbor replaces its row with the state's name and the time. Other rows are unchanged, no key is ever added, and a notification for an unknown neighbor leaves the table identical. |
| Server.PrefixNlri | bgp/server.go:268-278 | The prefix is accepted iff it contains exactly one "/". The NLRI's network is the text before it, and its length is the lenient conversion of the text after it. |
| Server.PrefixRoundTrip | bgp/server.go:275-278 | When the length text is a canonical decimal up to 2^32-1, the NLRI renders back to the prefix. |
| Server.Announce | bgp/server.go:267-318 | A malformed prefix gives the announce error and no engine call. Otherwise AddPath goes to the global table, IPv4 unicast, with the NLRI and ORIGIN, NEXT_HOP, AS_PATH in that order. An id is returned iff the response is present and holds sixteen bytes, and then the error is dropped and the id is the response UUID's canonical text. Otherwise the id is "" and the engine's error is returned. |
| Server.AnnounceIdIsResponse | bgp/server.go:309-313 | A returned id is the engine's response UUID: parsing the id gives back its bytes. |
| Server.Withdraw | bgp/server.go:320-352 | A malformed prefix gives the withdraw error and no engine call. Otherwise DeletePath goes to the global table, IPv4 unicast, with ORIGIN and NEXT_HOP only, and the engine's error is returned as is. |
| Server.Handle | bgp/server.go:224-238 | Dispatch: an announce returns announce's result; a withdraw returns "" with withdraw's call and error; any other type gives the "update type %d isn't supported" error with no engine call. |
| Server.WithdrawMatchesAnnounce | bgp/server.go:267-352 | A withdraw addresses the route an announce of the same message submits: same table, family and NLRI, and the announce's first two attributes. |
| Server.WithdrawHasNoId | bgp/server.go:231-233 | A withdraw never returns an id, and any call it makes carries only ORIGIN and NEXT_HOP. |
| Server.EmptyAsPathAnnouncesZero | bgp/server.go:273 | An empty AS-path text is announced as the one-number segment [0]. |
| Server.Step | bgp/server.go:144-162 | One loop iteration. A peer notification leaves the table as `applyNeighborState` makes it, and records nothing. An update leaves the handler unchanged, and the model records `handle`'s result (the engine call, the id and the error). |
| Server.Run | bgp/server.go:144-162 | The loop keeps the configuration and the table's key set. |
| Server.RunHandlesEveryUpdate | bgp/server.go:153-158 | The run's record holds one `handle` result per update message, in order: every update is handled, and a failed update never stops the loop. |
| Server.RunTableFromPeerEvents | bgp/server.go:148-158 | The table after a run depends only on the peer notifications in it. |
| Server.RunLastReportWins | bgp/server.go:148-151 | A known neighbor's row after a run is the one written by the last notification for it, or unchanged when there is none. |
| Handlers.Lookup | httpd/handler/neighbor_state_get.go:13 | The lookup finds a row iff the address is a key, and returns that row. |
| Handlers.NeighborStateGet | httpd/handler/neighbor_state_get.go:9-21 | A known neighbor's row with status 200; otherwise status 400 with the not-found text. |
| Handlers.LookupAfterNew | bgp/server.go:89-90 | Right after `New`, only the configured neighbor is found, at the zero row. |
| Handlers.LookupAfterApply | bgp/server.go:240-251 | After a notification for the configured neighbor, the lookup returns the reported state's name and the time. |
| Handlers.NeverConfiguredNotFound | httpd/handler/neighbor_state_get.go:13-17 | A neighbor that was never configured is answered with 400 after any sequence of events. |
| Handlers.ConfiguredShowsLastReport | httpd/handler/neighbor_state_get.go:13-14 | After any run from `New`, the configured neighbor shows the last notification for it, or the zero row. |
| Handlers.ApplyAttribute | httpd/handler/rib_count_get.go:29-41 | One turn of the attribute loop: a NEXT_HOP attribute sets the next hop; an AS_PATH attribute sets the AS path to its first segment's numbers joined by single spaces; ORIGIN attributes and attributes whose payload does not decode leave the projection unchanged. |
| Handlers.ProjectAttributes | httpd/handler/rib_count_get.go:27-43 | The attribute loop, in order: the next hop is that of the last attribute yielding one, and the AS path that of the last AS_PATH attribute that decodes. A field no attribute yields keeps its starting value. |
| Handlers.Project | httpd/handler/rib_count_get.go:18-50 | One destination's projection: its prefix; the age of the first path only when it is the sole path, else 0; the next hop and AS path the attribute loop leaves over the first path's attributes, starting from "". |
| Handlers.ProjectFields | httpd/handler/rib_count_get.go:18-50 | A projection's next hop and AS path are those of the last attribute of the first path yielding each, or "" when none does. |
| Handlers.ProjectAll | httpd/handler/rib_count_get.go:17-51 | The loop over the listed destinations: one projection per destination, in order. |
| Server.GetPaths | bgp/server.go:202-222 | The listing of the global table: the destinations visited, in order, or none at all when the listing fails. |
| Handlers.RibCountGet | httpd/handler/rib_count_get.go:11-57 | Every destination `GetPaths` returns is projected, in order, and the answer is 200 with their number: the number of destinations visited, or 0 when the listing failed. |
| Handlers.ProjectAnnounceAttributes | httpd/handler/rib_count_get.go:27-43 | The attribute loop over the attributes an announce submits leaves the announced next hop and the normalised AS path. |
| Handlers.AnnounceProjectsBack | httpd/handler/rib_count_get.go:27-50 | Assume the engine lists an announced path as a sole path carrying exactly the attributes the announce submitted. That listing projects back to the announced next hop and to the normalised AS path. |
| Handlers.AnnounceProjectsBackExactly | httpd/handler/rib_count_get.go:27-50 | Under the same assumption about the listing, when the AS-path text is canonical decimals separated by single spaces, the projection gives back exactly the text announced. |
| Scenarios.AnnounceScenario | bgp/server.go:267-318 | Announcing 192.0.2.0/24 via 10.0.0.2 with "65001 65002" submits NLRI (192.0.2.0, 24) with ORIGIN 0, NEXT_HOP 10.0.0.2 and AS_SEQUENCE [65001, 65002], and a sixteen-byte response yields an id and no error. |
| Scenarios.AnnouncedId | bgp/server.go:309-313 | An announce with a well-formed prefix and a sixteen-byte response returns an id and no error. |
| Scenarios.WithdrawScenario | bgp/server.go:320-352 | Withdrawing the same prefix deletes NLRI (192.0.2.0, 24) with ORIGIN and NEXT_HOP only, and succeeds when the engine does. |
| Scenarios.PeerStateScenario | bgp/server.go:240-251 | The configured neighbor reported ESTABLISHED at time t shows ("ESTABLISHED", t); a neighbor that was never configured is not found before or after. |

## Left out

- The demo goroutine in `Run` (bgp/server.go:103-142) that feeds sample updates, and `Run`'s start-up sequence: both only drive the engine.
- Engine start-up and peering: `startBgpServer`, `startPeerStateMonitoring`, `getPeer` and `addPeer`. On failure, the first two and `addPeer` log the error with `log.Println` and end the process with `os.Exit(-2)`. `getPeer` only builds the peer's configuration.
- What the loop does with `handle`'s result: the source discards the id and only logs the error (bgp/server.go:155-157). Nothing goes back to whoever submitted the update. The results the model's `Run` collects are a record for stating properties, not a reply channel.
- Concurrency: the goroutines, the channels and `select` are reduced to a sequence of events taken one at a time. The unsynchronised read of `States` by the HTTP handler while the loop writes it is a data race, and it is not modelled.
- The engine itself: `AddPath`, `DeletePath` and `ListPath` are inputs, namely the outcome an update carries and the destinations a listing visits. How the engine stores routes, and how it renders `Destination.Prefix`, are not modelled.
- Protobuf `Any` marshalling: an attribute is a tagged datatype carrying the type URL it would have. `Api.Opaque` stands for any payload that fails to unmarshal. `MarshalAny` errors, which the source ignores, are not modelled.
- Handlers.RibCountGet (and Handlers.ProjectAll, Handlers.Project): requires every listed destination to have a first path whose decoded AS_PATH attributes have a first segment. Otherwise the source indexes out of range and panics, and a panic is not modelled.
- Handlers.Project: a path's age is an `int`. The source reads `Age.Seconds` through a pointer that could be nil, and that case is not modelled.
- `time.Now().Unix()` and every `log` call: the clock reading is part of the event, and logging has no effect on state.
- The HTTP framework (gin): routing, path parameters and JSON encoding are reduced to a status and a body datatype.
- `rib_update_post.go`, `launcher` and `run_utils`: outside this core.
- Server.UpdateType is an unbounded `int` rather than Go's 64-bit `int`. It is only compared and printed with `%d`, so the width never matters.
- Session states other than the seven the engine's enum names are not modelled.
- `uuid.UUID.String` is modelled as plain grouped hex. Version and variant bits play no part in the adapter.
