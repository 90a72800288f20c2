# The Axona bridge: its door, proved

An Axona bridge is a WebSocket server that lets browsers and relays into a peer-to-peer
mesh, and itself a node of that mesh. Its *door* admits sockets, introduces them to each
other, binds identities to them, and lets them go again once they have a mesh of their own.
This project models the door and the small data structures and selection rules it rests on,
and proves what they keep, over every interleaving and every run.

| module | what it models |
|---|---|
| `Door`, `DoorHandlers`, `DoorViews`, `DoorGraduation`, `DoorRuns`, `DoorServer` | the server of `src/server.js`: a transition system over connect, hello, list request, relay, heartbeat, rebind, graduation, bootstrap release, close and the far end's reads; what each event does and to whom; what every run keeps; runs in which it does not keep more; and the handlers with their loops |
| `WsTransport`, `BridgeNode` | the socket transport's bindings and pending table, and the handshake guard around it, with a verification that may return after the socket has closed |
| `BindPolicy`, `SlidingBudget`, `RecentlyRetired`, `DoorKeys` | the make-room policy: sliding budget, lazily pruned cooldowns, deferred close fenced by incarnation |
| `GraduatedRegistry`, `Sampler`, `DirectoryFeed` | the memory of graduated ids and the random samples of introductions |
| `AnchorSelect`, `AnchorChoice`, `AnchorBalance`, `GraduationSelect` | whom a newcomer is introduced to, and who graduates |
| `SignalMeter`, `KernelLog`, `SafeContext`, `BridgeBook`, `TopK`, `Codecs`, `Decimal`, `NodeId` | the signal meter, the log cap, context sanitising, the bridge book, the nearest-K set and the wire codecs |

How to read it. Where the source changes state step by step there is a class whose methods
keep the source's loops and branches; each is proved equal to a transition function on plain
values (`Model()` gives the value), and the lemmas then speak of that function, one event and
whole runs at a time. Fields marked `ghost` are what an observer of a run could write down
(everything settled, every mark, every spend); the code never reads them. Clocks, random
draws, what the kernel answers and whether a socket write throws are parameters.

Where the code does not keep what one would expect of it, the code is modelled as it is, the
exact condition is proved, and a run or an input shows the failure:

- graduations leave every region covered once their closes take effect, but the tick still counts
  sockets that are on their way out: two graduations before any close event can take both members
  of a region, and go on below cap plus slack (conditions `DoorGraduation.CoverageKeptIff`,
  `ThresholdKeptIff`; run `DoorRuns.PendingClosesCanOrphanARegion`);
- a bootstrap release has no guard for the region at all (condition
  `DoorGraduation.ReleaseKeepsCoverageIff`; run `DoorRuns.ReleaseCanOrphanARegion`);
- the selection's own comment says that a region with one eligible and one ineligible peer counts
  as two, but the server hands it only the peers its gate lets through: one held by the gate does not
  count, and its region keeps the other (condition `DoorGraduation.SomeoneGraduatesIff`; run
  `DoorRuns.GateHeldMateDoesNotCount`);
- a handshake that completes after its socket closed leaves a binding behind, can take the identity
  from a live socket, and keeps it until that identity binds again or an unarmed door's kernel closes
  it (conditions `BridgeNode.OrphanIffLateHandshake`, `OrphanEndsIff`, `OrphanStaysOut`; run
  `LateHandshakeTakesBinding`);
- the cyclic request ids are safe exactly while the next id is free: past that a request is still
  settled once, by its timer if by nothing else, but is lost to the table (condition
  `WsTransport.SendAccountsIff`; run `BridgeNode.IdsCanCollide`);
- without a slot to give (`k <= 0`) the anchor choice still introduces one region-mate
  (`AnchorChoice.NoSlotsIntroducesOne`);
- the signal meter's counter wraps after 2^31 attempts in one window. With fewer, a window relays at
  most RATE and any stretch of time one window long at most 2 RATE - 1; with more neither holds
  (conditions `SignalMeter.WindowKeepsRateIff`, `IntervalsKeepTwiceRateIff`; runs `WrapLetsMoreThrough`,
  `WrappedWindowsBreakTwiceRate`);
- an error's name and message pass through the context sanitiser as they are: the result is bounded
  and serialisable exactly as far as those are (conditions `SafeContext.NoRawReferenceIff`,
  `TreeIsBounded`, `SerialisesIff`; inputs `RawGraphsAreUnbounded`, `StubbornErrorsDoNotSerialise`),
  and an error whose own fields throw makes the function throw unless it lies under an object's key,
  though its documentation says values degrade rather than throw (condition `ThrowsIff`; input
  `BrokenErrorThrows`);
- the bridge book's `merge` documents that it answers true when it changed the book; it answers
  true when it accepted (condition `BridgeBook.AcceptedUnchangedIff`; input `StaleArrival`). Its stored
  signer depends on the order of arrival unless the winner is signed or nobody is (condition
  `SignerIsFixedIff`; input `OrderDecidesTheSigner`);
- the wire codec gives back what was sent exactly when no string looks like a BigInt, and relays a
  frame verbatim exactly when its BigInts are canonical (conditions `Codecs.ReviveUndoesReplaceIff`,
  `RelayIsVerbatimIff`; inputs `LookalikeComesBackAsBig`, `LeadingZeroIsLost`).

Two results are remarks on boundaries no running bridge meets: a clock that reads 0
(`SignalMeter.TimeZeroIsUnmetered`), and a negative row cap, which `installKernelLog` accepts from
a caller but the server never passes (`KernelLog.GapsAddUpIff`).

`dafny verify dfyconfig.toml` checks the project.

## Model

| member | source | states |
|---|---|---|
| DoorViews.DrainedViewHasNoGhosts | src/server.js:605-618 | in every run, once an open client's outbox has drained its view holds only connections admitted at that moment, or the bridge, never itself; a client not yet admitted has been introduced to no one |
| DoorViews.AnnouncedSeeEachOther | src/server.js:1312-1414 | of two announced clients still connected the one announced first comes to see the other and, with the nursery off, each comes to see the other |
| DoorViews.NoDoubleOffers | src/server.js:1312-1414 | of two clients' first peer-lists only the later announced one's can name the other, so they never both make the offer |
| DoorViews.StampNamesIntro | src/server.js:1376-1414 | an announced connection's first list is the one recorded under its stamp |
| DoorViews.RunKeeps | src/server.js:1244-1718 | numbering, no ghosts, knowing and introduction hold after every sequence of door events |
| DoorViews.StepKeeps | src/server.js:1244-1718 | each single door event keeps them |
| DoorViews.CloseKeeps | src/server.js:1683-1718 | forgetting a closed connection and telling everyone admitted leaves no one's view holding it |
| DoorViews.AdmitKeeps | src/server.js:1312-1425 | an admission, also of a credential-only socket that is never announced, keeps the views sound |
| DoorViews.AnnounceKeeps | src/server.js:1364-1414 | giving the newcomer its list and everyone else the news keeps every announced pair in view of each other |
| DoorViews.ListRequestKeeps | src/server.js:1555-1573 | answering a list request adds only admitted others to a view |
| DoorViews.ChosenAreAdmitted | src/server.js:1348-1375 | however chosen, the newcomer's list names admitted others, and all of them with the nursery off |
| DoorHandlers.ListRequestDoes | src/server.js:1555-1573 | a list request of an admitted client is answered with the bridge first, if it offers itself and the client takes it, and then every admitted other in order of connection; the client is marked as introduced outside its cohort exactly when someone on that list is older by more than the cohort, or graduates are listed; no other record changes, and anyone else's request is ignored |
| DoorHandlers.AskerSeesEveryone | src/server.js:1555-1573 | so an open client that asks comes to see every admitted other, and the bridge where it applies |
| DoorHandlers.AdmissionDoes | src/server.js:1312-1414 | a first admission welcomes the client; a credential-only one ends there; any other is sent a list, which goes on record: the bridge first where it applies, mates of the claimed region before everyone else, exactly the nursery's anchors or, with the nursery off, every admitted other. Every other admitted client hears of it, and with the nursery on the use counters of those listed move by one. A client already admitted, or gone, changes nothing |
| DoorHandlers.SmallDoorIntroducesEveryone | src/server.js:1348-1375 | with the nursery off, or fewer seasoned connections than its minimum pool, that list names every admitted other |
| DoorHandlers.RelayDoes | src/server.js:1626-1676 | a signal of an admitted sender goes to the recipient, who need only be connected, as from that sender, and to no one else; any other changes nothing |
| DoorHandlers.CloseDoes | src/server.js:1683-1718 | a close removes that record, keeps the others in order, and tells everyone admitted who stays, once |
| DoorHandlers.ReleaseDoes | src/server.js:723-740 | a bootstrap release happens exactly for an admitted client on a bound channel whose kernel can reconnect and whose report is fresh and at the floor; it starts the close and the cooldown of the bound identity |
| DoorHandlers.MarksDo | src/server.js:1576-1600 | a heartbeat's report, a binding, a door mark, a close begun and a frame read each change the one record they name, and only if it is there |
| DoorHandlers.ConnectionDoes | src/server.js:1244-1310 | a connection is a new record under the next handle, sent the version gate, not admitted and introduced to no one |
| DoorHandlers.CountIs | src/server.js:654-656 | the threshold counts the admitted connections, those on their way out included |
| Door.AbsorbFirst | src/server.js:589-599 | a client reading frames one by one in order ends at the view the whole outbox leads to |
| Door.PushFinal | src/server.js:589-599 | a frame sent to an open socket changes what the client will see by that frame alone; one sent to a closing socket changes nothing |
| DoorGraduation.GraduationsKeepKeyspaceCovered | src/server.js:649-707 | over any run in which no tick finds a close pending, whatever else happens between ticks, each region covered before and not after was uncovered by the other events, each one gained was gained by them, and the admitted count plus those who left by them is never driven below cap plus slack |
| DoorGraduation.GraduationKeepsCoverage | src/server.js:649-707 | one graduation whose close takes effect changes no region's coverage, lowers the admitted count by one exactly when there is a pick, and never drives it below cap plus slack |
| DoorGraduation.PickIsReplaceable | src/server.js:660-696 | the graduate is a bound, admitted connection out of cooldown, and another admitted connection of its region that the gate lets through stays |
| DoorGraduation.GraduateIsFit | src/server.js:644-690 | whoever graduates runs a kernel that can reconnect, is ready by a fresh report, the ceiling or uptime, and has been introduced outside its cohort or has waited out the nursery; only above the threshold and a whole interval after the last |
| DoorGraduation.SomeoneGraduatesIff | src/server.js:649-707 | a tick graduates someone exactly when the nursery is on, an interval has passed, more than cap plus slack are admitted, and someone that the gate lets through is fit, bound, out of cooldown, and has a mate in its region that the gate lets through too |
| DoorGraduation.MayGoByHistory | src/server.js:660-690 | in every run of the door a connection may go exactly when it is let through by the gate (introduced outside its cohort, or at the ceiling), can reconnect, is ready and bound, its identity was not graduated or released less than the cooldown ago, and a mate of its region is let through as well |
| DoorGraduation.CooldownIsExact | src/server.js:670-706 | in every run of the door an identity is in cooldown exactly when it was graduated or released less than the cooldown ago, although the map is pruned |
| DoorGraduation.GraduateIsBest | src/server.js:688-696 | no one else who may go is of a fuller region, or of one as full with a larger fresh mesh, or with an equal mesh older |
| DoorGraduation.PruneDoes | src/server.js:705-706 | a graduation prunes the cooldown map only above a thousand entries, and then exactly what has run out |
| DoorGraduation.GraduationsArePaced | src/server.js:649-655 | in every run of the door N graduations span at least N - 1 intervals |
| DoorGraduation.NoRegraduationInCooldown | src/server.js:670-700 | in every run of the door no identity is graduated twice within the cooldown, although the cooldown map is pruned |
| DoorGraduation.RunPaced | src/server.js:649-740 | the pacing and cooldown records hold after every run under a clock that does not run back |
| DoorGraduation.CoverageKeptIff | src/server.js:697-701 | in any state a graduation leaves the coverage alone exactly when another open connection of the pick's region stays, or the pick was leaving anyway |
| DoorGraduation.ThresholdKeptIff | src/server.js:654-656 | a graduation does not drive the open connections below cap plus slack exactly when more than that are open, or the pick was leaving anyway |
| DoorRuns.PendingClosesCanOrphanARegion | src/server.js:649-707 | a run of the door, from its opening, in which two graduations before any close event leave a region without an open connection and no one open where the threshold is one |
| DoorRuns.GateHeldMateDoesNotCount | src/server.js:678-686 | a run of the door in which a region of two admitted peers keeps the one that may otherwise go, above the threshold, because its mate is held by the gate |
| DoorRuns.ReleaseCanOrphanARegion | src/server.js:723-740 | a run of the door in which a bootstrap release takes the only open connection of a region |
| DoorRuns.Arrived | src/server.js:1312-1425 | connecting, admission, binding and heartbeats leave exactly the records graduation reads in those runs |
| DoorGraduation.ReleaseKeepsCoverageIff | src/server.js:723-740 | a bootstrap release happens only on a bound channel and a fresh report of enough mesh, and keeps the coverage exactly when the socket is not the last open one of its region |
| DoorServer.Server.OnConnection | src/server.js:1244-1310 | a connection gets the next handle, is sent the version gate and is not yet admitted; every view stays sound |
| DoorServer.Server.AdmitConnection | src/server.js:1312-1425 | an admission does what the door's admit transition does, and keeps no ghosts and no double offers |
| DoorServer.Server.AnnounceNewcomer | src/server.js:1348-1414 | choosing, ordering, recording usage and introducing, with their loops, amount to the announcement |
| DoorServer.Server.ChooseFor | src/server.js:1348-1375 | the newcomer is introduced to the nursery's anchors, distinct, or to everyone admitted |
| DoorServer.Server.BumpAnchors | src/server.js:1364-1373 | each anchor's use counter moves by one and no other does |
| DoorServer.Server.OlderThanCohort | src/server.js:517-532 | answers whether anyone listed is admitted and older than the newcomer's cohort |
| DoorServer.Server.SendAll | src/server.js:605-618 | a broadcast pushes the frame to every admitted connection but the exception, and counts them |
| DoorServer.Server.GatherOthers | src/server.js:1555-1566 | gathers the admitted connections other than the asker, in order |
| DoorServer.Server.OnPeerListRequest | src/server.js:1555-1573 | does what the list-request transition does, and keeps the views sound |
| DoorServer.Server.OnSignal | src/server.js:1626-1676 | does what the relay transition does, and answers true exactly when the sender is admitted and the recipient is there |
| DoorServer.Server.OnPing | src/server.js:1576-1600 | a heartbeat with a report that is not negative does what recording it and then the bootstrap release do; any other leaves the door as it was |
| DoorServer.Server.MaybeCloseBootstrapSocket | src/server.js:723-740 | does what the release transition does, and answers whether the socket could be released |
| DoorServer.Server.OnDoorBound | src/server.js:528-533 | a connection whose channel to the bridge has bound counts as introduced outside its cohort |
| DoorServer.Server.OnClose | src/server.js:1683-1718 | does what the close transition does, and answers how many were told |
| DoorServer.Server.CountAdmitted | src/server.js:654-656 | counts the admitted connections, closing ones included |
| DoorServer.Server.DescribeAdmitted | src/server.js:660-688 | describes each admitted connection the gate does not hold, its cooldown by the map at that moment |
| DoorServer.Server.MaybeGraduate | src/server.js:649-707 | a tick does what the graduation transition does, and keeps the views sound |
| WsTransport.SendAccountsIff | src/ws_transport.js:214-238 | the account of requests survives an accepted send exactly when the next cyclic id is not an outstanding one's |
| WsTransport.SendPromises | src/ws_transport.js:214-238 | any send, on a free id or not, leaves every request issued settled once or with its timer armed |
| WsTransport.WindowPreventsCollision | src/ws_transport.js:219-222 | fewer than 0x7fffffff requests issued since any outstanding one keeps the next id free |
| BridgeNode.IdsCanCollide | src/ws_transport.js:219-222 | 0x7fffffff requests to one silent peer, none yet timed out, bring the ids round to an outstanding one, and the next send breaks the account |
| WsTransport.SameId | src/ws_transport.js:219-222 | two requests share an id exactly when a multiple of 0x7fffffff separates them |
| WsTransport.NextIdFollows | src/ws_transport.js:221 | the wrap to 1 is the cyclic numbering, one request on |
| WsTransport.SettleAccounts | src/ws_transport.js:326-337 | settling an outstanding request moves it from the table to the settlements and disarms its timer |
| WsTransport.RejectAccounts | src/ws_transport.js:163-173 | rejecting any entries of the table, in its loop, keeps the account |
| WsTransport.RejectPromises | src/ws_transport.js:163-173 | and with colliding ids still leaves every request settled once or its timer armed |
| WsTransport.RejectSettles | src/ws_transport.js:163-173 | every entry hit is settled, colliding ids or not |
| WsTransport.RejectTakes | src/ws_transport.js:163-173 | rejecting takes exactly the entries for that identity, or all |
| WsTransport.DeathTakesItsOwn | src/ws_transport.js:353-377 | the close of an identity's current connection settles exactly what is outstanding to that identity, as peer died, and leaves every other request; the close of any other connection settles none |
| WsTransport.SupersedeTakesItsOwn | src/ws_transport.js:163-173 | superseding an identity settles exactly what is outstanding to it, as route superseded, and leaves every other request and every binding |
| WsTransport.StopTakesAll | src/ws_transport.js:113-120 | a stop settles everything outstanding, as stopped, leaves the bindings, and no peer can be reached after it |
| WsTransport.SendDoes | src/ws_transport.js:214-238 | a send goes out exactly when the transport runs and the identity's connection is open; it then issues one request under the next id, settled at once as failed if the socket throws and outstanding to that identity otherwise; entries under other ids stay |
| WsTransport.TimerDoes | src/ws_transport.js:224-227 | a timer settles its own request as timed out and takes what is under its id; one already cleared does nothing |
| WsTransport.ResponseDoes | src/ws_transport.js:326-337 | a response settles the one entry under its id, resolved or as a remote error, and no other; without one it does nothing |
| WsTransport.StopAccounts | src/ws_transport.js:113-120 | after a stop every request ever issued has settled and no timer is armed |
| WsTransport.TimeoutAccounts | src/ws_transport.js:224-227 | a timer that fires settles its own request and keeps the account |
| WsTransport.ResponseAccounts | src/ws_transport.js:326-337 | a response settles the request with its id or nothing, and keeps the account |
| WsTransport.BindBetweenDeaths | src/ws_transport.js:353-377 | between two deaths of an identity lies a bind of it, on the connection whose close is the second |
| WsTransport.ConnClosedKeeps | src/ws_transport.js:353-377 | a close keeps the two maps coherent, the log exact and outstanding requests targeted, and leaves the connection unbound |
| WsTransport.DeathEndsInterval | src/ws_transport.js:353-377 | a close reports a death exactly when it ends a bound interval; a stale socket's close reports none and touches no other binding |
| WsTransport.CloseConnectionKeeps | src/ws_transport.js:182-205 | the kernel's own close keeps the bindings coherent and reports nothing |
| WsTransport.BindKeeps | src/ws_transport.js:126-138 | binding an identity anew keeps the maps coherent and the log exact |
| WsTransport.BindDoes | src/ws_transport.js:126-138 | a bind makes the connection the identity's current one, reachable exactly while the transport runs and the socket is open, and moves no other identity |
| WsTransport.KernelCloseDoes | src/ws_transport.js:182-205 | the kernel's close unbinds that identity alone, only at an unarmed door, and settles nothing |
| WsTransport.UnbindKeepsCoherent | src/ws_transport.js:140-147 | unbinding, stale connections included, keeps identity to connection inside the inverse |
| WsTransport.WebSocketTransport.SendRequest | src/ws_transport.js:214-238 | a send to a reachable peer issues the next id and is rejected at once if the socket throws; to an unreachable one it leaves no trace |
| WsTransport.WebSocketTransport.OnTimeout | src/ws_transport.js:224-227 | the timer deletes the entry under its id and rejects the promise |
| WsTransport.WebSocketTransport.HandleResponse | src/ws_transport.js:326-337 | a response settles the entry under its id, or is ignored |
| WsTransport.WebSocketTransport.RejectPending | src/ws_transport.js:367-372 | the loop over a snapshot of the table rejects each entry hit |
| WsTransport.WebSocketTransport.SupersedePeer | src/ws_transport.js:163-173 | a superseded identity's requests are rejected and its bindings left |
| WsTransport.WebSocketTransport.StopTransport | src/ws_transport.js:113-120 | a stop rejects everything outstanding and empties the table |
| WsTransport.WebSocketTransport.BindPeer | src/ws_transport.js:126-138 | both maps take the new binding |
| WsTransport.WebSocketTransport.UnbindPeer | src/ws_transport.js:140-147 | the identity's entry goes only if this connection is still its current one |
| WsTransport.WebSocketTransport.CloseChannel | src/ws_transport.js:182-205 | an armed door keeps socket and binding until the socket closes; an unarmed one unbinds silently |
| WsTransport.WebSocketTransport.HandleConnClosed | src/ws_transport.js:353-377 | the close of a current connection reports the death, rejects the identity's requests and unbinds; of a stale one only unbinds |
| BridgeNode.RunKeeps | src/bridge_axona_node.js:648-778 | after every interleaving of sockets, handshakes and requests, colliding ids included: each request issued has settled once or has its timer armed, the bindings are coherent, the log is exact, and what is outstanding is targeted |
| BridgeNode.StepKeeps | src/bridge_axona_node.js:648-778 | each event keeps them |
| BridgeNode.HandshakeDoes | src/bridge_axona_node.js:909-947 | the first handshake to complete on a connection binds its identity there and a later one, of whatever identity, changes nothing |
| BridgeNode.FirstHandshakeStands | src/bridge_axona_node.js:909-947 | over any run, until its socket closes, a connection never comes to stand for another identity |
| BridgeNode.CloseForgets | src/bridge_axona_node.js:648-662 | the close of an open socket forgets its hello and its binding and no one else's |
| BridgeNode.EveryRequestSettlesOnce | src/ws_transport.js:214-238 | in every run each request issued has settled exactly once or has its timer armed and has not settled, and whatever is in the table has its timer armed; if no request is ever sent while 0x7fffffff or more have been issued since an outstanding one, the table holds exactly the requests with an armed timer |
| BridgeNode.RunAccounts | src/ws_transport.js:214-238 | under that pacing no run ever loses a request to the table |
| BridgeNode.SettlementsStand | src/ws_transport.js:214-238 | no later event takes a settlement back |
| BridgeNode.TimerAndResponseSettle | src/ws_transport.js:224-227 | an unsettled request is settled by its timer, in the table or not, and one in the table by a response with its id, each with the right outcome |
| BridgeNode.RejectionsSettle | src/ws_transport.js:163-173 | what is in the table is settled by superseding its identity, by stopping, and by the close of the identity's current socket |
| BridgeNode.DeathsAreSeparated | src/ws_transport.js:353-377 | in every run two deaths of an identity have a bind between them |
| BridgeNode.BindingsInjective | src/ws_transport.js:126-147 | in every run no two identities sit on one connection |
| BridgeNode.ArmedDoorReportsEveryEnd | src/ws_transport.js:182-205 | at an armed door an identity stops being bound exactly when the event is a close that reports its death, once |
| BridgeNode.OutstandingTargetsBound | src/ws_transport.js:182-205 | in every run of an armed door what is outstanding is to a bound identity |
| BridgeNode.UnarmedCloseIsSilent | src/ws_transport.js:182-205 | an unarmed door can lose a binding without a death |
| BridgeNode.OrphanIffLateHandshake | src/bridge_axona_node.js:909-912 | a closed socket comes to hold a binding exactly when a handshake completes on it after the close |
| BridgeNode.LateHandshakeTakesBinding | src/bridge_axona_node.js:738-765 | such a handshake can take the identity from the live socket it had meanwhile bound on, leaving it unreachable |
| BridgeNode.OrphanEndsIff | src/bridge_axona_node.js:909-912 | an event takes the identity off the dead socket exactly when it completes a handshake of that identity on another, or the door is unarmed and the kernel closes the identity |
| BridgeNode.OrphanStaysOut | src/bridge_axona_node.js:909-912 | over any run without one, armed or not, the identity stays bound to the dead socket and every send to it fails |
| BridgeNode.BridgeAxonaNode.SendHello | src/bridge_axona_node.js:670-686 | a first hello marks the connection pending and a repeated one changes nothing |
| BridgeNode.BridgeAxonaNode.FinishHandshake | src/bridge_axona_node.js:909-947 | the first completion on a connection binds the identity, later ones do nothing |
| BridgeNode.BridgeAxonaNode.HandleConnClosed | src/bridge_axona_node.js:648-662 | the close forgets the hello and passes on to the transport |
| BindPolicy.RetiresStayInBudget | src/bridge_axona_node.js:469-481 | over every run any trailing window holds at most perMin make-room retires, and the retires equal the budget's spent counter |
| BindPolicy.CooldownIsExact | src/bridge_axona_node.js:461 | a bind is refused for cooldown exactly when the unpruned history has a mark of that identity younger than the cooldown |
| BindPolicy.DecidesByHistory | src/bridge_axona_node.js:434-487 | the whole decision by the history alone: a bind on a door key of this epoch passes exactly when its identity is not cooling, the gate admits it, and the mesh is not over a positive cap or fewer than perMin retires lie in the window and there is a victim; it retires exactly when over the cap; each refusal is for the first of the four questions answered badly |
| BindPolicy.DoorBoundIff | src/bridge_axona_node.js:484-506 | a connection counts as bound to the door exactly from a bind that passes or a route that switches to its key, until its socket closes |
| BindPolicy.RefusalsAreDeferred | src/bridge_axona_node.js:440-463 | a refusal, and nothing else, defers one close, of the key offered with the channel it held then |
| BindPolicy.RetiredStaysOut | src/bridge_axona_node.js:477-480 | whatever happens after a retire, its victim's identity cannot bind through the door until the cooldown has run out |
| BindPolicy.RetiredConnectionStaysOut | src/bridge_axona_node.js:515-522 | nor can the connection on whose door key the victim sat negotiate anew |
| BindPolicy.RefusalIsInert | src/bridge_axona_node.js:440-460 | a refusal leaves channels, bindings, marks, spends and the door as they were, and every later bind would be decided as before |
| BindPolicy.RefusalClosesOnlyWhatItRefused | src/bridge_axona_node.js:447-458 | after any run following a refusal, its deferred close takes the channel under a key exactly when that is the refused key and still holds the incarnation it held at the refusal; every other channel and its bindings stay |
| BindPolicy.NewChannelsOutliveOldRefusals | src/bridge_axona_node.js:447-458 | a channel opened after a refusal is never closed by it: whatever run came before the opening and whatever run follows, a close deferred before it leaves what the key holds, and the bindings on it |
| BindPolicy.NumbersAreNotReused | src/bridge_axona_node.js:450-456 | over any run the incarnation a key once gave up does not come back under it |
| BindPolicy.PassTakesTheVictimAlone | src/bridge_axona_node.js:466-487 | a pass takes the channel under a key exactly when it retires and the kernel named that key its victim, leaves all others, and marks the newcomer's connection door-bound |
| BindPolicy.RunKeeps | src/bridge_axona_node.js:434-527 | budget, cooldown and mesh records hold after every run in which the mesh changes as it likes between steps |
| BindPolicy.StepKeeps | src/bridge_axona_node.js:434-527 | each event keeps them |
| BindPolicy.OfferMarks | src/bridge_axona_node.js:477-480 | a retire marks the victim's identity and connection, and nothing else marks anything |
| BindPolicy.DoorPolicy.Judge | src/bridge_axona_node.js:461-473 | cooldown, gate, budget and victim are asked in that order, each only if the one before let it through |
| BindPolicy.DoorPolicy.MakeRoom | src/bridge_axona_node.js:474-482 | a retire drops the victim's channel, spends once and marks both scopes |
| BindPolicy.DoorPolicy.Admit | src/bridge_axona_node.js:434-488 | the policy answers false exactly on a refusal, does what the offer transition does, and keeps the records |
| BindPolicy.DoorPolicy.CloseRefused | src/bridge_axona_node.js:448-458 | the deferred callback does what the fire transition does |
| BindPolicy.DoorPolicy.OnRouteToDoor | src/bridge_axona_node.js:498-506 | a route that switches to a door key of this epoch marks its connection bound, any other token nothing |
| BindPolicy.DoorPolicy.DeliverDoorSignal | src/bridge_axona_node.js:515-527 | a frame is kept from the mesh exactly when it is a new offer from a connection that the full history says is cooling |
| SlidingBudget.WindowHoldsAtMost | src/socket_bootstrap.js:135-145 | spends of which any perMin + 1 in a row span a window put at most perMin in any trailing window, wherever it ends |
| SlidingBudget.GrantedSpendSpreads | src/socket_bootstrap.js:142-143 | a spend on a granted ask keeps them so, though old timestamps are gone |
| SlidingBudget.AskTracks | src/socket_bootstrap.js:141-142 | asking the pruned list answers as the whole history would |
| SlidingBudget.HasRoomIff | src/socket_bootstrap.js:141-142 | an ask is granted exactly when fewer than perMin of all the spends ever made lie in the window |
| SlidingBudget.AskDoes | src/socket_bootstrap.js:142-143 | an ask without room is counted as refused and a spend is not |
| SlidingBudget.SpendTracks | src/socket_bootstrap.js:143 | a spend keeps the list equal to the history's part inside the window |
| SlidingBudget.SlidingBudget.Ok | src/socket_bootstrap.js:142 | answers whether the window has room and counts a refusal |
| SlidingBudget.SlidingBudget.SpendOne | src/socket_bootstrap.js:143 | prunes, records the spend and counts it |
| SlidingBudget.SlidingBudget.InWindow | src/socket_bootstrap.js:144 | answers how many timestamps are left in the window |
| SlidingBudget.SlidingBudget.Drop | src/socket_bootstrap.js:141 | the shifting loop drops what has left the window and no more |
| RecentlyRetired.AnswersExactly | src/socket_bootstrap.js:155-161 | pruned or not, the answer is that of the key's last mark in the whole history |
| RecentlyRetired.LastIsLatest | src/socket_bootstrap.js:162-163 | every mark of a key is at or before its last |
| RecentlyRetired.ForgetTracks | src/socket_bootstrap.js:155-161 | dropping an expired entry when it is asked for loses no answer |
| RecentlyRetired.BoundTracks | src/socket_bootstrap.js:166-169 | sweeping a large map loses no answer |
| RecentlyRetired.AskDoes | src/socket_bootstrap.js:155-165 | asking forgets an entry that has run out, counts a refusal by one that has not, and touches no other |
| RecentlyRetired.BoundDoes | src/socket_bootstrap.js:166-169 | a sweep leaves a map of up to a thousand entries alone and takes from a larger one exactly what has run out |
| RecentlyRetired.PutTracks | src/socket_bootstrap.js:162-163 | a mark renews the key's answer and no other |
| RecentlyRetired.RecentlyRetired.MarkId | src/socket_bootstrap.js:162 | marks an identity that is not empty and bounds both maps |
| RecentlyRetired.RecentlyRetired.MarkConnection | src/socket_bootstrap.js:163 | marks a connection that is not empty and bounds both maps |
| RecentlyRetired.RecentlyRetired.HasIdentity | src/socket_bootstrap.js:164 | answers whether the identity is cooling, counts a refusal, forgets what has expired |
| RecentlyRetired.RecentlyRetired.HasConn | src/socket_bootstrap.js:165 | the same for a connection |
| RecentlyRetired.RecentlyRetired.DropExpired | src/socket_bootstrap.js:166-169 | the sweep deletes exactly the expired entries of a map of more than 1000 |
| DoorKeys.PrintUndoesParse | src/socket_bootstrap.js:108-116 | printing a parsed door key gives the key back |
| DoorKeys.ParseUndoesPrint | src/socket_bootstrap.js:108-116 | parsing a printed one gives both parts back exactly when neither is empty and the epoch has no colon |
| DoorKeys.IsOwnIff | src/socket_bootstrap.js:108-122 | for an epoch that is not empty and has no colon, its own door keys are exactly d, the epoch, a colon and something behind it |
| GraduatedRegistry.HoldsExactly | src/graduated_registry.js:94-115 | after a sweep the registry holds exactly the ids whose last registration is younger than L_reg and was followed by registrations of fewer than M_reg other ids |
| GraduatedRegistry.PoolOfHistory | src/graduated_registry.js:126-137 | what a sample chooses among, by the history alone: each id but the excluded one whose last registration is younger than L_reg and was followed by registrations of fewer than M_reg others, once |
| GraduatedRegistry.NoteRefinesHistory | src/graduated_registry.js:94-104 | a registration keeps the map equal to the whole-history reading, re-registration and eviction included |
| GraduatedRegistry.SweepTrims | src/graduated_registry.js:107-115 | a sweep keeps it equal to that reading at the new moment |
| GraduatedRegistry.EarlyBreakIsFullSweep | src/graduated_registry.js:107-115 | stopping at the first live entry removes exactly what a full sweep would |
| GraduatedRegistry.LatestReadsHistory | src/graduated_registry.js:94-104 | the order of the map tells each id's last moment and who registered since |
| GraduatedRegistry.GraduatedRegistry.Note | src/graduated_registry.js:94-104 | accepts exactly 66-hex ids, appends to the history, and keeps accepted notes equal to size plus evicted plus expired plus re-registrations |
| GraduatedRegistry.GraduatedRegistry.EvictOldest | src/graduated_registry.js:98-102 | leaves the newest M_reg entries and counts the others |
| GraduatedRegistry.GraduatedRegistry.Prune | src/graduated_registry.js:107-115 | removes the expired entries, answers and counts how many, and leaves the rest |
| GraduatedRegistry.GraduatedRegistry.Sample | src/graduated_registry.js:126-137 | a selection of min(r, pool) distinct live ids without the excluded one, determined by the draws as in the sampler |
| Sampler.Uniform | src/graduated_registry.js:126-137 | of all equally likely draw vectors exactly one yields a given ordered selection, so every selection is equally likely |
| Sampler.VectorCount | src/graduated_registry.js:130-135 | there are m (m-1) ... (m-n+1) draw vectors |
| Sampler.VectorsAreTheValidDraws | src/graduated_registry.js:130-135 | they are exactly the vectors with one choice in [0, m-i) per step |
| Sampler.EverySelectionIsDrawn | src/directory_feed.js:104-108 | every ordered selection comes from some draws |
| Sampler.OnlyOneDrawPerSelection | src/directory_feed.js:104-108 | and from no others; what is drawn is always a selection |
| Sampler.PickIsSelection | src/directory_feed.js:104-108 | whatever the draws, the result is distinct members of the pool |
| Sampler.PartialShuffle | src/graduated_registry.js:130-135 | the swapping loop leaves the drawn selection in front, and the array a rearrangement of itself |
| Sampler.Sample | src/directory_feed.js:104-108 | copying, shuffling the front and slicing it off yields what the draws pick |
| DirectoryFeed.DeliveriesAreSound | src/directory_feed.js:86-125 | in every run each delivery was asked for with no stop since, is a selection of that request's candidates of the right size, goes to the handlers subscribed when it fires, and happens once at most; requests equal served plus unavailable |
| DirectoryFeed.UnstoppedIsDelivered | src/directory_feed.js:117-124 | a timer that fires before any stop delivers, to everyone subscribed by then |
| DirectoryFeed.AnswersAreUniform | src/directory_feed.js:104-109 | every selection of the candidates is the answer to exactly one vector of draws |
| DirectoryFeed.CandidatesAre | src/directory_feed.js:96-103 | the candidates are the distinct lowercased 66-hex strings of the source other than the bridge |
| DirectoryFeed.LowerIs | src/directory_feed.js:99 | lowercasing turns each capital letter into the small one of its place in the alphabet and nothing else |
| DirectoryFeed.StatsAre | src/directory_feed.js:86-110 | over any run served, unavailable and failed are the numbers of requests met by an array, by anything else, and by a fault of the source |
| DirectoryFeed.RequestReports | src/directory_feed.js:103-110 | a request met by an array reports its candidates and the size of its sample |
| DirectoryFeed.HandlersAre | src/directory_feed.js:76-80 | a handler is told exactly while its last subscription has not been cancelled |
| DirectoryFeed.RunKeeps | src/directory_feed.js:86-135 | timers, deliveries and counters stay consistent after every run |
| DirectoryFeed.DirectoryFeed.Collect | src/directory_feed.js:96-103 | the filtering loop with its seen set computes the candidates |
| DirectoryFeed.DirectoryFeed.RequestIntroductions | src/directory_feed.js:86-125 | a source that is missing, throws or is malformed is unavailable; an array is answered by a deferred random sample |
| DirectoryFeed.DirectoryFeed.StopFeed | src/directory_feed.js:129-135 | a stop moves on to the next generation and clears the timers, but for the ones already on their way |
| DirectoryFeed.DirectoryFeed.Deliver | src/directory_feed.js:117-121 | a delivery of an older generation tells no one; one of this generation tells the handlers there are now |
| AnchorSelect.FillsEverySlot | src/anchor_select.js:82-120 | for k at least 1 the choice is min(k, eligible) distinct entries of the ranking |
| AnchorSelect.BoundBeforeUnbound | src/anchor_select.js:104-119 | an unbound anchor is chosen only if every bound eligible one is |
| AnchorSelect.BestOfEachRegion | src/anchor_select.js:82-119 | within each region the chosen are a prefix of the score ranking |
| AnchorSelect.RegionMatesIntroduced | src/anchor_select.js:82-91 | at least min(max(1, k/2), available) of the chosen are from the newcomer's region |
| AnchorSelect.RegionsSpread | src/anchor_select.js:92-102 | of R regions at least min(R, k - max(1, k/2) + 1) are represented |
| AnchorSelect.NoSlots | src/anchor_select.js:86 | for k not positive the choice is one region-mate if there is one, else nothing |
| AnchorChoice.FallsBackIff | src/anchor_select.js:48-63 | the choice falls back exactly when fewer than minPool candidates are admitted, not the newcomer and connected for minUptimeMs, and reports how many are |
| AnchorChoice.FallbackIntroducesEveryone | src/anchor_select.js:61-63 | falling back, the choice is exactly everyone admitted but the newcomer, each once |
| AnchorChoice.FillsItsSlots | src/anchor_select.js:45-121 | otherwise, for k at least 1, it is min(k, seasoned) distinct seasoned candidates |
| AnchorChoice.BoundFirst | src/anchor_select.js:104-119 | an unbound candidate is chosen only if every seasoned bound one is |
| AnchorChoice.BestFirst | src/anchor_select.js:68-119 | of two seasoned candidates of one region the one chosen scores no lower than the one passed over |
| AnchorChoice.HomeShare | src/anchor_select.js:82-91 | at least min(max(1, k/2), available) of the chosen are seasoned candidates of the newcomer's region |
| AnchorChoice.RegionShare | src/anchor_select.js:92-102 | of R regions at least min(R, k - max(1, k/2) + 1) are represented |
| AnchorChoice.RegionsByScore | src/anchor_select.js:92-102 | when a region is left out, every anchor from outside the newcomer's region scores at least as well as any seasoned candidate of it |
| AnchorChoice.NoSlotsIntroducesOne | src/anchor_select.js:86 | for k not positive the choice is one seasoned region-mate if there is one, else nobody |
| AnchorChoice.ScoreIs | src/anchor_select.js:68-71 | the score is uptime in proportion up to ten times the minimum, less the load weight times the share of the greatest number of uses |
| AnchorSelect.SelectBounded | src/anchor_select.js:45-121 | the bounded choice is min(k, eligible) distinct handles of eligible candidates |
| AnchorSelect.SelectIntroducesAdmitted | src/anchor_select.js:45-121 | whichever way it chooses it introduces only admitted connections, never the newcomer to itself |
| AnchorSelect.SortIsStable | src/anchor_select.js:68-72 | the ranking descends by score, keeps every entry and keeps equals in order |
| AnchorSelect.RankingIsEligible | src/anchor_select.js:58-72 | the ranking holds each eligible candidate once with its region and score |
| AnchorSelect.RunPass | src/anchor_select.js:82-119 | one greedy pass as its loop with the set of used regions |
| AnchorSelect.FindMaxUses | src/anchor_select.js:65-66 | the loop finds the greatest use counter |
| AnchorSelect.SelectAnchors | src/anchor_select.js:45-121 | the four loops together compute the choice the lemmas speak of |
| AnchorSelect.OrderPutsMatesFirst | src/anchor_select.js:152-162 | the reordering loses no peer and puts exactly the region-mates in front |
| AnchorSelect.OrderIsStable | src/anchor_select.js:152-162 | region-mates keep their order among themselves, and so do the others |
| AnchorSelect.OrderSameRegionFirst | src/anchor_select.js:152-162 | the two-list loop computes that reordering |
| AnchorBalance.IntroductionsStayBalanced | src/anchor_select.js:65-72 | over any run of newcomers on a fixed single-region pool at full uptime the most used anchor never leads the least used by more than max(1, initial gap) |
| AnchorBalance.LeastUsedFirst | src/anchor_select.js:93-119 | whoever is introduced has been used no more than whoever is not |
| AnchorBalance.IntroduceKeepsLevel | src/server.js:1364-1373 | one choice and bump keeps the counters level |
| AnchorBalance.ScoreWeighsAgeAndUse | src/anchor_select.js:68-71 | of equally used anchors the older scores no lower, and higher until uptime saturates; of equally old ones the less used scores higher |
| GraduationSelect.WinnerIsOptimal | src/graduation_select.js:40-81 | the pick is the lexicographic optimum by occupancy, mesh and age among eligible peers of regions with at least two members, the first of equals, and there is none only when there is no such peer |
| GraduationSelect.OptimumIsUnique | src/graduation_select.js:63-81 | there is only one such optimum |
| GraduationSelect.PickIsFirst | src/graduation_select.js:40-81 | the pick, said without the ranking: among those able to reconnect, bound, rested, ready and not alone in their region, the one of the fullest region, then the largest mesh, then the oldest, then the first listed; none exactly when there is no such candidate |
| GraduationSelect.PickReports | src/graduation_select.js:50-79 | the pick reports its candidate's region and mesh, and the ground it goes on: its mesh before its time in the nursery before its uptime |
| GraduationSelect.CountRegions | src/graduation_select.js:45-48 | the tally counts each region's members, eligible or not |
| GraduationSelect.SelectGraduate | src/graduation_select.js:40-81 | the loops compute the pick |
| SignalMeter.WindowKeepsRateIff | src/server.js:1655-1665 | in every run, under a clock that neither runs back nor reads 0, a meter window relays at most RATE signals exactly when it sees at most max(RATE, 2^31) attempts |
| SignalMeter.WrapLetsMoreThrough | src/server.js:1658 | 2^31 + 1 attempts within one window relay more than the rate |
| SignalMeter.AnyIntervalKeepsTwiceRate | src/server.js:1655-1665 | under the same clock a stretch of time one window long, wherever it starts, relays at most 2 RATE - 1 signals if each window it meets has seen at most max(RATE, 2^31) attempts, whatever the others have |
| SignalMeter.IntervalsKeepTwiceRateIff | src/server.js:1655-1665 | for a window of 2 ms or more: all runs with at most n attempts in each window keep every such stretch at 2 RATE, and equally at 2 RATE - 1, exactly when n is at most max(RATE, 2^31) |
| SignalMeter.TwiceRateLessOneIsMet | src/server.js:1655-1665 | a run reaches 2 RATE - 1 |
| SignalMeter.WrappedWindowsBreakTwiceRate | src/server.js:1658 | a run of two windows with more than max(RATE, 2^31) attempts each relays more than 2 RATE within one window's length |
| SignalMeter.AttemptsAreAccounted | src/server.js:1659-1664 | attempts equal relayed plus dropped, one log row per window with a drop, and the socket's own count is right exactly until it wraps |
| SignalMeter.TimeZeroIsUnmetered | src/server.js:1657 | at time 0 every attempt opens a new window and is relayed |
| SignalMeter.NoRateRelaysAll | src/server.js:1655 | without a positive rate everything is relayed and nothing is counted |
| SignalMeter.AllowedKeepsRateIff | src/server.js:1658-1659 | of the first n attempts of a window at most RATE get through exactly when n is at most max(RATE, 2^31) |
| SignalMeter.SocketMeter.MayRelay | src/server.js:1655-1665 | the handler's branches do what one metered attempt does |
| KernelLog.NothingIsLost | src/kernel_log.js:164-183 | rows offered equal emitted plus dropped, and emitted equals the rows sunk by level |
| KernelLog.GapsAddUpIff | src/kernel_log.js:164-183 | announced gaps plus the current overflow make up the drops exactly when the cap is not negative; then every announcement's total is the exact running sum |
| KernelLog.EachSecondPassesUpToTheCap | src/kernel_log.js:164-183 | under a clock that does not run back each second passes exactly min(offered, cap) rows |
| KernelLog.SinkGets | src/kernel_log.js:164-183 | under such a clock the sink gets exactly the rows of the calls that are among the first cap of their second, each at its own level and under its own message, in order, and before the row that opens a second the announcement of what the last one dropped, with the cap and the total |
| KernelLog.RunKeeps | src/kernel_log.js:145-183 | counters, levels and gaps agree with what was sunk after every run |
| KernelLog.KernelLog.EmitRow | src/kernel_log.js:164-183 | the callback does what one emit does, announcement first |
| SafeContext.ThrowsIff | src/kernel_log.js:77-107 | a given context throws exactly when an error whose name or message throws is reached from it through array, map and set elements alone, within the element and depth limits |
| SafeContext.BrokenErrorThrows | src/kernel_log.js:93-104 | an error without a readable name throws, and so does an array of it; an object with it under a key does not |
| SafeContext.ObjectsNeverThrow | src/kernel_log.js:96-104 | an exception under an object's key stays there |
| SafeContext.HoldsIff | src/kernel_log.js:77-107 | a value is in the result as it was found exactly when an error in reach has it as name or message: within the element, key and depth limits, not overwritten by a later key of the same name or the truncation mark, and not lost to an exception beside it |
| SafeContext.NoRawReferenceIff | src/kernel_log.js:93 | the result holds no reference exactly when no error in reach has one as name or message |
| SafeContext.TreeIsBounded | src/kernel_log.js:77-107 | then, from any graph, cyclic or endless, and unfolded to any depth, the result is at most 17309826 nodes, and fewer for a value met deeper |
| SafeContext.BoundIsMet | src/kernel_log.js:77-107 | one object with 65 keys leading back to itself reaches that number |
| SafeContext.RawGraphsAreUnbounded | src/kernel_log.js:93 | an error whose message is an array of n elements becomes n + 3 nodes, so with a reference there is no bound |
| SafeContext.SerialisesIff | src/kernel_log.js:93 | a given context becomes one `JSON.stringify` takes exactly when every error in reach has a name and a message it takes: finite below, through array elements and own enumerable properties (those of errors, maps and sets included), with no BigInt and no getter that throws |
| SafeContext.StubbornErrorsDoNotSerialise | src/kernel_log.js:93 | an error whose message is a BigInt, or an array that holds itself, passes through and does not serialise |
| SafeContext.BigsReadAsIds | src/kernel_log.js:80-82 | a BigInt in an id's range is spelled as the id is everywhere else |
| SafeContext.LeavesStay | src/kernel_log.js:77-88 | flags, finite numbers and strings of up to 512 characters stay as they are, a longer string keeps its first 512 and tells its length, and the other leaves become their tags |
| SafeContext.ListReads | src/kernel_log.js:90-95 | an array becomes the list of its first 32 elements one level down and a mark with the count if there are more; a map its first 32 keys and a set its first 32 members, two levels down |
| SafeContext.DeepReads | src/kernel_log.js:89 | from the fourth level down nothing is looked into |
| SafeContext.RecordReads | src/kernel_log.js:96-104 | an object becomes the record of its first 64 keys, each with its value one level down or marked as unserializable, and a mark if there are more |
| BridgeBook.LastWriterWins | src/bridge_book_store.js:53-68 | a stored URL carries the first entry with the greatest timestamp ever validly merged for it; it is absent exactly when that one had aged out at the last accepted merge |
| BridgeBook.ReplaysDoNotResurrect | src/bridge_book_store.js:57-66 | an aged-out bridge is not brought back by replaying what was merged before |
| BridgeBook.WinnerIsFirstGreatest | src/bridge_book_store.js:57 | the register's winner is the first merge with the greatest timestamp |
| BridgeBook.AcceptedUnchangedIff | src/bridge_book_store.js:48-68 | a rejected merge changes nothing; an accepted one leaves the book as it was exactly when it was new, already too old, and nothing else had expired |
| BridgeBook.StaleArrival | src/bridge_book_store.js:53-68 | a first entry that is already too old is accepted and leaves the book empty |
| BridgeBook.EntriesDoNotDependOnOrder | src/bridge_book_store.js:53-68 | without ageing or equal timestamps the stored entry does not depend on the order of arrival |
| BridgeBook.SignerIsFixedIff | src/bridge_book_store.js:60 | the stored signer does not depend on the order exactly when the winner is signed or nobody signed |
| BridgeBook.OrderDecidesTheSigner | src/bridge_book_store.js:60 | a signed entry and an unsigned newer one, merged in either order, store the same entry with different signers |
| BridgeBook.TenureIsKept | src/bridge_book_store.js:61 | without ageing firstSeen is the time of the first valid merge |
| BridgeBook.BridgeBookStore.MergeEntry | src/bridge_book_store.js:53-68 | the method with its deleting loop does what one merge does and answers true exactly when it accepted |
| TopK.AnswerIsNearest | src/bridge_axona_node.js:806-824 | the answer is exactly the min(K, n) nearest ids, nearest first: of two ids the nearer is the one that has the target's bit at the highest bit where they differ |
| TopK.AnswerIsUnique | src/bridge_axona_node.js:806-824 | there is only one such answer |
| TopK.NearerIff | src/bridge_axona_node.js:811 | the exclusive-or distance orders two ids by the target's bit at the highest bit where they differ, for negative targets as well |
| TopK.PrefixIsNearer | src/bridge_axona_node.js:811 | an id that shares the target's leading bits down to some place is nearer than one that does not |
| TopK.DistanceSeparates | src/bridge_axona_node.js:811 | two ids are equally far from a target only if they are the same, negative targets included |
| TopK.XorUndoes | src/bridge_axona_node.js:811 | exclusive or undoes itself |
| TopK.TakeInsert | src/bridge_axona_node.js:812-822 | cutting to K before an insertion loses nothing that cutting after would keep |
| TopK.FindClosestSet | src/bridge_axona_node.js:806-824 | the one-pass insertion answers exactly that for every K at least 1; for K not positive it fails exactly on a synaptome that is not empty |
| TopK.Splice | src/bridge_axona_node.js:813-815 | the search and splice insert in order |
| Codecs.ReviveUndoesReplaceIff | src/server.js:576-587 | what is sent is what is received, sets flattened, exactly when no string in it looks like a BigInt |
| Codecs.LookalikeComesBackAsBig | src/server.js:576-587 | the string "1n" comes back as a BigInt |
| Codecs.RelayIsVerbatimIff | src/server.js:576-587 | a frame parsed and written again is the same frame exactly when its BigInts are spelled canonically |
| Codecs.LeadingZeroIsLost | src/server.js:576-587 | "01n" is relayed as "1n" |
| Codecs.BigRoundTrip | src/server.js:576-587 | every BigInt's spelling matches the reviver's pattern and parses back to it |
| Codecs.ReplaceGoesOnWire | src/server.js:576-580 | what is sent has no BigInt and no set left in it |
| Codecs.LiteralIs | src/server.js:583 | a string looks like a BigInt exactly when it is an optional minus, at least one decimal digit, and an n |
| Decimal.ParseUndoesPrint | src/server.js:577 | every integer prints as an integer literal that parses to it |
| Decimal.PrintUndoesParseIff | src/server.js:583-584 | a literal prints back as it was exactly when it has no leading zero and is not a negative zero |
| Decimal.DigitIs | src/server.js:577 | the digits are the ten characters 0 to 9 in their order |
| NodeId.ParseUndoesPrint | src/identity.js:137 | parsing undoes printing for every id, and the print is 66 hex digits exactly below 2^264 |
| NodeId.PrintUndoesParse | src/identity.js:137 | printing undoes parsing for every 66-hex spelling |
| NodeId.DigitIs | src/identity.js:137 | the digits are the sixteen characters 0 to 9 and a to f in their order |
| NodeId.HexDigitIff | src/anchor_select.js:138 | a hex digit is one of those sixteen, small letters only |
| NodeId.RegionIsTopByte | src/server.js:630-635 | the region of a bound id is floor(id / 2^256) as two hex digits, and the region its spelling claims is the same |
| NodeId.OnlyHex66Claims | src/anchor_select.js:136-139 | a claim counts exactly when it is 66 lowercase hex digits, and is then the region that id would be bound in |

## Left out

- The kernel (`@axona/protocol`): composite routing, mesh negotiation, the admission gate, pub/sub. What the policy is told of it (the gate's answer, the open count, the victim) is a parameter; the mesh is open channels with an incarnation per key that no other channel ever has, and an identity sits only on an open channel.
- Sockets, HTTP, `/healthz` and `/diag`, TURN, signal handlers, shutdown, the JSON text itself (RFC 8259). Frames to an open socket arrive in order; a `Door` send does not fail.
- `src/uplink.js`, `src/polyfill.js`, `src/bridge_engine.js`, `src/bridge_directory.js`, `src/config.js`, `src/fill_arming.js`, `src/uplink_policy.js` and the version floors: wiring, timers and single branches. A hello stands for one that has passed the version gates.
- Connection records are values in a sequence, not objects in a Map: a handler that keeps a reference across an `await` is modelled by looking the record up again.
- The `graduated` sample that rides in a peer-list, and whether it reaches outside the newcomer's cohort, is the parameter `listed`; the sample itself is `GraduatedRegistry.GraduatedRegistry.Sample`.
- DoorServer.Server.OnSignal: models relays between connections; signals to the reserved id go to `BindPolicy`, and the meter is `SignalMeter`, so a metered drop is a relay that does not happen.
- DoorServer.Server.OnPing: the replies and the heartbeat timer are not modelled.
- AnchorSelect.SelectAnchors: scores are exact reals, so rounding ties are not modelled. With `minUptimeMs` 0 a candidate that connected this very millisecond scores NaN in the source and stands wherever the engine's sort leaves it; here it scores as one whose uptime has saturated. The lemmas about the passes hold of every ranking.
- AnchorBalance.IntroductionsStayBalanced: is about one region at full uptime with a positive load weight; across regions the affinity and diversity passes favour scarce regions on purpose.
- GraduatedRegistry.GraduatedRegistry.Sample: the draws are integers chosen per step; that `Math.random` is uniform is not part of this model.
- WsTransport.WebSocketTransport.HandleConnClosed: the close of a socket that never bound tells the kernel its connection id; that report names no identity and is not in the log.
- BindPolicy.PassTakesTheVictimAlone: that the kernel never names the newcomer as its victim is relied on and not checked by the code, and is not part of this model.
- BindPolicy.DoorPolicy.Admit: the counters of refusals by reason and the cleared bind deadline are not modelled.
- BridgeNode.BridgeAxonaNode.FinishHandshake: what the bridge does with the peer after the bind, the kernel's admission to its synaptome, is not modelled.
- BridgeNode.BridgeAxonaNode.HandleConnClosed: the door-bound mark it drops is `BindPolicy`'s `SocketCloses`; the cancelled negotiation is the mesh's.
- BridgeBook.BridgeBookStore.MergeEntry: an accepted merge also writes the book to disk, which is not modelled.
- KernelLog.KernelLog.EmitRow: the row's fields and the size check on their JSON (`boundedContext`) are not modelled; the tree they come from is `SafeContext`.
- SafeContext.ThrowsIff: exceptions come from getters and from an error's fields; proxies and exotic arrays are not modelled, and a key named `__proto__` is treated as any other.
- SafeContext.SerialisesIff: `toJSON` methods are not modelled.
- BridgeBook.LastWriterWins: starts from an empty book; loading, saving and `candidates` are not modelled, and timestamps are integers.
- TopK.FindClosestSet: the target is a BigInt and K an integer; anything else is not modelled.
- DirectoryFeed.DirectoryFeed.Deliver: handlers that throw are caught in the source and have no effect here; `lastAt` is not kept.
