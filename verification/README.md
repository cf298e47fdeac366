# hebzconnect signalling and presence, modelled in Dafny

hebzconnect lets a *sharer* show its screen to a *viewer* over WebRTC. The
two browsers find each other through a Firebase realtime database: peers
register under `peers/{id}`, and offers, answers and ICE candidates are
exchanged under `signals/{id}/...`. This project models the bookkeeping
around WebRTC and Firebase as pure functions over immutable records, and
proves what that bookkeeping guarantees.

Modules, one per page or route, over shared foundations:

- `Wrappers`, `Json`: JSON values, JavaScript `undefined`, truthiness,
  `||`, `ToNumber` with NaN, property assignment and object spreading.
- `Store`: the database as one JSON tree. `At` reads a path (`Null` when
  absent). `Put` is a whole-value PUT. `ParsePath` turns an interpolated
  path string into segments, dropping empty ones as Firebase does.
- `Text`: `trim`, ASCII `toUpperCase`, `substring` and the text shape of
  `Math.random().toString(36)`.
- `Negotiation`: each page's peer-connection calls and store writes, as one
  ordered effect log. `Commit` applies the log's writes to the store.
  Ordering properties become statements about positions in the log.
- `SignalApi` (`web/pages/api/signal.js`): method and `type` dispatch to a
  single PUT, or to a 405/400/500 status.
- `PeersApi` (`web/pages/api/peers.js`): the 30-second staleness filter.
- `Dashboard` (`web/pages/dashboard.js`): resolving a typed code to a peer.
- `ConnectPage` (`web/pages/connect.js`): the guest code, the registration
  body and the heartbeat.
- `Sharer` (`web/pages/connect-stream.js`): the access code, registration,
  heartbeat, connection-state display, and the one-shot offer handler with
  the viewer-candidate gate. Each callback is one step of a state machine.
- `Viewer` (`web/pages/mobile-viewer.js`): offer publication, answer
  polling with the flush of queued candidates, and candidate polling with
  structural de-duplication. Each poll is one step of a state machine.
- `Scenarios`: the pages and routes composed through the store. It covers
  the whole offer/answer exchange and which registrations the dashboard can
  find.

Each state machine has an invariant, and lemmas prove that every step
preserves it, so it holds over any sequence of events.

The code is followed wherever it departs from an idealised protocol:

- Only `/api/peers` filters peers by `lastSeen` (`web/pages/api/peers.js`
  line 31). The dashboard lookup reads the node directly and tests `code`
  and `online` alone (`web/pages/dashboard.js` line 26), so a peer that
  stopped its heartbeat is still found while its `online` stays true
  (`Dashboard.OnlineFlagNotLastSeen`).
- The sharer page writes no `online` flag. Its own registration is
  therefore never found by the dashboard (`Scenarios.SharerNeverMatched`).
- A viewer addressed by code writes its offer under the code, which never
  equals a sharer id (`Scenarios.ViewerByCodeMissesSharer`).

## Model

| member | source | states |
|---|---|---|
| SignalApi.Handle | web/pages/api/signal.js:5-104 | non-POST is exactly the 405 case; any non-200 leaves the store unchanged; a 200 needs a configured URL and a successful write, and its store is one PUT applied to the old store |
| SignalApi.RegisterRecord | web/pages/api/signal.js:29-34 | the stored peer is online, seen now, with `hostname` when truthy else "Unknown PC", and `code` when truthy else null |
| SignalApi.MissingUrlFails | web/pages/api/signal.js:18-22 | any POST without a configured store URL answers 500 and writes nothing |
| SignalApi.WriteFailureFails | web/pages/api/signal.js:37-39 | when the PUT fails, a POST answers 400 or 500 and the store is unchanged |
| SignalApi.UnknownTypeRejected | web/pages/api/signal.js:88-92 | a type other than register/offer/answer answers 400 and writes nothing |
| SignalApi.RegisterPlan | web/pages/api/signal.js:25-35 | a register message with a one-segment id is planned as a PUT of the online record at `peers/{id}` |
| SignalApi.RegisterReplacesPeer | web/pages/api/signal.js:25-45 | register answers 200; `peers/{id}` then reads the online record; every path neither above nor below it is unchanged |
| SignalApi.OfferReplacesTargetSlot | web/pages/api/signal.js:47-66 | offer answers 200; `signals/{targetId}/offer` holds signal, sender and time; every unrelated path is unchanged |
| SignalApi.AnswerKeyedBySender | web/pages/api/signal.js:68-86 | answer is stored under the sender's `peerId` (not `targetId`); every unrelated path is unchanged |
| SignalApi.SecondWriteWins | web/pages/api/signal.js:26-27 | two successful requests to the same slot leave the store as the second alone would |
| SignalApi.EmptyPeerIdReplacesAllPeers | web/pages/api/signal.js:26 | a register with an empty `peerId` overwrites the whole `peers` node with one record |
| SignalApi.EmptyRegisterPath | web/pages/api/signal.js:26 | the interpolated path `peers/` with an empty id names the `peers` node itself |
| SignalApi.RegisterPathOf | web/pages/api/signal.js:26 | `peers/${peerId}` with a one-segment id is the two-segment path |
| SignalApi.OfferPathOf | web/pages/api/signal.js:48 | `signals/${targetId}/offer` with a one-segment id is the three-segment path |
| SignalApi.AnswerPathOf | web/pages/api/signal.js:69 | `signals/${peerId}/answer` with a one-segment id is the three-segment path |
| PeersApi.Handle | web/pages/api/peers.js:5-48 | 405 exactly for non-GET; 500 without a URL or on a failed read; a success lists the fresh entries with ids; a null node gives an empty list |
| PeersApi.FreshEntries | web/pages/api/peers.js:30-31 | every kept entry is fresh, and no more entries are kept than given |
| PeersApi.Listed | web/pages/api/peers.js:32 | one output per entry, in order, each the record with its key as `id` |
| PeersApi.Kept | web/pages/api/peers.js:30-31 | the reference selection: positions in range, at most one per entry |
| PeersApi.KeptExactly | web/pages/api/peers.js:30-31 | the selected positions increase strictly and are exactly the fresh ones |
| PeersApi.FreshAtKept | web/pages/api/peers.js:30-31 | the filter's output is the entries at the selected positions, in order |
| PeersApi.FreshAtKeptCons | web/pages/api/peers.js:30-31 | the selection step when the first entry is kept |
| PeersApi.FreshAtKeptSkip | web/pages/api/peers.js:30-31 | the selection step when the first entry is dropped |
| PeersApi.PeersAreFreshEntriesInOrder | web/pages/api/peers.js:27-37 | the response is an order-preserving selection of the store entries; an entry is listed iff it is fresh; each is the record with its key as `id` |
| PeersApi.NullEntryFails | web/pages/api/peers.js:31 | a null entry anywhere makes the read throw, which answers 500 |
| PeersApi.StrictBoundary | web/pages/api/peers.js:31 | exactly 30000 ms old is stale, 29999 ms old is fresh |
| PeersApi.MissingLastSeenExcluded | web/pages/api/peers.js:31 | a record without `lastSeen` is never fresh (NaN comparison) |
| PeersApi.WithIdFields | web/pages/api/peers.js:32 | `id` is the record's own `id` if present else the key; every other property is the record's |
| Dashboard.StopAt | web/pages/dashboard.js:25-27 | where `find` stops: the first entry that matches or is null; all earlier entries are non-null non-matches |
| Dashboard.ViewScreen | web/pages/dashboard.js:13-41 | no lookup iff the prompt is cancelled or empty; a failed read is an error; otherwise the first entry that matches the cleaned code or is null decides: a match navigates to `/remote?peer={key}`, a null entry is an error, and when every entry is a non-null non-match the code is not found |
| Dashboard.StopAtIsFirstStop | web/pages/dashboard.js:25-27 | the first entry that matches or is null is where `find` stops; when every entry is a non-null non-match it runs past the end |
| Dashboard.PresentMatchFound | web/pages/dashboard.js:25-32 | with no null entry, a matching online entry is always found: the dashboard navigates to a matching entry no later than it, and to it when nothing earlier matches |
| Dashboard.CleanIgnoresCase | web/pages/dashboard.js:16 | cleaning an upper-cased input gives the same code as cleaning the input |
| Dashboard.CaseInsensitiveInput | web/pages/dashboard.js:16 | typing the code in any letter case gives the same outcome |
| Dashboard.StoredLowerCaseNeverMatches | web/pages/dashboard.js:16-26 | a stored code holding a lower-case letter is never matched, whatever is typed |
| Dashboard.OnlineFlagNotLastSeen | web/pages/dashboard.js:26 | records that agree on `code` and `online` match the same inputs, whatever their `lastSeen` |
| Dashboard.OfflineNeverMatches | web/pages/dashboard.js:26 | a record whose `online` is falsy or absent never matches |
| Dashboard.NullPeersNotFound | web/pages/dashboard.js:25-35 | a null `peers` node gives not-found for any non-empty input |
| Dashboard.BlankInputLooksUpEmptyCode | web/pages/dashboard.js:15-16 | an all-blank answer is non-empty, so it is looked up, as the empty code |
| ConnectPage.FormatCode | web/pages/connect.js:15-16 | with six random digits available, the code is 7 characters, `-` at index 3, and the two halves are the upper-cased digits 2-4 and 5-7 |
| ConnectPage.CodeShape | web/pages/connect.js:15-16 | for random text, every non-dash code character is in `[0-9A-Z]`, and the six characters are the upper-cased digits |
| ConnectPage.ShortExpansionGivesShortCode | web/pages/connect.js:15-16 | a short base-36 expansion (`0.i`) gives the 2-character code `I-` |
| ConnectPage.ToBase36 | web/pages/connect.js:20 | `toString(36)` is non-empty, made of base-36 digits, and read back in base 36 denotes the number; it has one digit iff the number is below 36 |
| ConnectPage.PeerIdInjective | web/pages/connect.js:20 | ids generated at different milliseconds differ |
| ConnectPage.PeerId | web/pages/connect.js:20 | the id starts with `PC-` and contains no `/` |
| ConnectPage.PeerIdIsKey | web/pages/connect.js:20 | the id is one non-empty path segment |
| ConnectPage.RegisterBody | web/pages/connect.js:28-33 | the body is an object with type register, the id, hostname `Guest-{code}` and the code |
| ConnectPage.Start | web/pages/connect.js:13-43 | the heartbeat starts iff the registration response is 2xx; a thrown request shows "Connection failed" |
| ConnectPage.HeartbeatBody | web/pages/connect.js:45-62 | a tick posts a body iff the heartbeat was started |
| ConnectPage.HeartbeatRepeatsRegistration | web/pages/connect.js:51-56 | every heartbeat posts exactly the initial registration body |
| Sharer.SharerPeerId | web/pages/connect-stream.js:26 | for random text the sharer id is one path segment |
| Sharer.GenerateCode | web/pages/connect-stream.js:54-58 | 7 characters, `-` at index 3, the other six from the 32-symbol alphabet |
| Sharer.CodeRoundTrip | web/pages/connect-stream.js:54-58 | the six indices drawn are recovered from the code |
| Sharer.CodeAvoidsLookalikes | web/pages/connect-stream.js:55 | no code contains I, O, 0 or 1 |
| Sharer.PeerRecord | web/pages/connect-stream.js:33-38 | the record has id, code, `hostname` or "Desktop", and `lastSeen`, and no `online` |
| Sharer.HeartbeatPut | web/pages/connect-stream.js:42 | a tick is a PUT of the time at `peers/{id}/lastSeen` |
| Sharer.HeartbeatTouchesOnlyLastSeen | web/pages/connect-stream.js:41-43 | a tick sets `lastSeen`, keeps every other property of the record, and changes no unrelated path |
| Sharer.NeverOnline | web/pages/connect-stream.js:33-43 | after registration and any heartbeats, the record still has no `online` and keeps its code |
| Sharer.HeartbeatsKeepOffline | web/pages/connect-stream.js:41-43 | heartbeats keep a record without `online` that way, and keep its code |
| Sharer.OnConnectionState | web/pages/connect-stream.js:148-157 | connected sets the flag, disconnected/failed clear it, any other state changes nothing |
| Sharer.ConnectedFollowsLastDecisive | web/pages/connect-stream.js:148-157 | after a run of states the flag reflects the last decisive state; without one the display is untouched |
| Sharer.Completed | web/pages/connect-stream.js:75-212 | all four logged steps happen iff `handleOffer` completes |
| Sharer.AnswerRecord | web/pages/connect-stream.js:181-184 | the published answer carries the local description as `signal` |
| Sharer.OnOffer | web/pages/connect-stream.js:64-72 | null data or a set flag changes nothing; otherwise a prefix of set-remote, create-answer, set-local, publish runs, and the flag stays set iff all of it ran |
| Sharer.RepeatedOfferIgnored | web/pages/connect-stream.js:66-68 | once an offer is answered, further notifications change nothing |
| Sharer.RetryAfterFailure | web/pages/connect-stream.js:207-211 | a failure clears the flag, so the next offer is answered in full |
| Sharer.AnswerStepsFacts | web/pages/connect-stream.js:161-184 | only the last of the four steps publishes, none applies a candidate, the first sets the remote description |
| Sharer.ViewerCandidates | web/pages/connect-stream.js:194-203 | without null entries, one candidate per entry in store order |
| Sharer.OnViewerCandidates | web/pages/connect-stream.js:190-205 | only candidate applications are appended, and nothing else changes |
| Sharer.EarlyViewerCandidatesDropped | web/pages/connect-stream.js:196 | without a remote description candidates are dropped, not kept for later |
| Sharer.ListenerAppliesEveryEntry | web/pages/connect-stream.js:190-205 | on a reachable state every entry of the node is applied, in store order |
| Sharer.CandidatesReapplied | web/pages/connect-stream.js:191-194 | a repeated notification applies every entry again |
| Sharer.OnLocalCandidate | web/pages/connect-stream.js:119-136 | a null candidate writes nothing; another is written under `sharerCandidates`, keyed by the millisecond |
| Sharer.Step | web/pages/connect-stream.js:64-212 | no event changes the sharer's id |
| Sharer.Run | web/pages/connect-stream.js:64-212 | no run of events changes the sharer's id |
| Sharer.AnswersSentAppend | web/pages/connect-stream.js:181-184 | the answers published by a log are the sum over its parts |
| Sharer.NoAnswerInAdds | web/pages/connect-stream.js:197 | applying candidates publishes no answer |
| Sharer.InitialInv | web/pages/connect-stream.js:18 | the freshly loaded page satisfies the invariant |
| Sharer.OnOfferKeepsInv | web/pages/connect-stream.js:64-212 | the offer handler keeps the invariant |
| Sharer.OnViewerCandidatesKeepsInv | web/pages/connect-stream.js:190-205 | the candidate listener keeps the invariant |
| Sharer.OnLocalCandidateKeepsInv | web/pages/connect-stream.js:119-136 | publishing a local candidate keeps the invariant |
| Sharer.StepKeepsInv | web/pages/connect-stream.js:64-212 | every event keeps the invariant |
| Sharer.RunKeepsInv | web/pages/connect-stream.js:64-212 | every run of events keeps the invariant |
| Sharer.AtMostOneAnswer | web/pages/connect-stream.js:64-72 | whatever arrives, at most one answer is published and no candidate is applied before a remote description |
| Viewer.TargetOf | web/pages/mobile-viewer.js:30-37 | the target is the peer id when given, else the code; there is none (nothing runs) iff both are falsy |
| Viewer.OfferRecord | web/pages/mobile-viewer.js:108-112 | the offer carries the local description and `from` = `mobile-viewer` |
| Viewer.Start | web/pages/mobile-viewer.js:35-125 | the offer is set locally before it is written; polling starts iff both succeed; nothing is applied or remote |
| Viewer.OnLocalCandidate | web/pages/mobile-viewer.js:88-94 | a null candidate writes nothing; another is written under `viewerCandidates`, keyed by the millisecond, never queued |
| Viewer.PollAnswer | web/pages/mobile-viewer.js:128-160 | without a truthy signal, or when it is rejected, nothing changes; when an awaited answer with a truthy signal is accepted, the remote description is set, then the queue is applied in order and emptied, and answer polling stops |
| Viewer.PolledCandidates | web/pages/mobile-viewer.js:171-184 | the candidates of the entries before the first null one, in store order |
| Viewer.Enqueue | web/pages/mobile-viewer.js:180-181 | the queue only grows; it ends up holding exactly the old and the new candidates, without creating duplicates; everything appended was polled and was not queued before |
| Viewer.EnqueueKeepsPollOrder | web/pages/mobile-viewer.js:174-182 | appended candidates keep the order of their first occurrence in the poll |
| Viewer.EnqueueFreshBatch | web/pages/mobile-viewer.js:174-182 | a poll of distinct, not yet queued candidates is appended exactly as polled |
| Viewer.PollCandidates | web/pages/mobile-viewer.js:163-203 | a missing or falsy poll changes nothing; with a remote description the candidates polled up to the first null entry are applied in order and the queue kept; without one they are queued with structural de-duplication and nothing applied |
| Viewer.StartInv | web/pages/mobile-viewer.js:35-125 | the started page satisfies the invariant |
| Viewer.PollAnswerKeepsInv | web/pages/mobile-viewer.js:128-160 | an answer poll keeps the invariant |
| Viewer.PollCandidatesKeepsInv | web/pages/mobile-viewer.js:163-203 | a candidate poll keeps the invariant |
| Viewer.OnLocalCandidateKeepsInv | web/pages/mobile-viewer.js:88-94 | publishing a local candidate keeps the invariant |
| Viewer.StepKeepsInv | web/pages/mobile-viewer.js:128-203 | every poll or candidate event keeps the invariant |
| Viewer.RunKeepsInv | web/pages/mobile-viewer.js:128-203 | every run of events keeps the invariant |
| Viewer.CandidatesNeverBeforeAnswer | web/pages/mobile-viewer.js:141-182 | whatever the polls return, no candidate is applied before the answer and the queue has no duplicates |
| Viewer.QueuedBeforeAnswer | web/pages/mobile-viewer.js:174-182 | before the answer, every polled candidate is queued and none applied |
| Viewer.QueuedOnce | web/pages/mobile-viewer.js:180-181 | candidates already queued are not queued again |
| Viewer.EnqueueKnown | web/pages/mobile-viewer.js:180 | queueing only known candidates leaves the queue as it was |
| Viewer.AppliedAfterAnswer | web/pages/mobile-viewer.js:163-203 | after the answer, candidates are applied at once, and re-polling applies them again |
| Viewer.NoAttemptBound | web/pages/mobile-viewer.js:135-138 | any number of answer polls without a signal change nothing |
| Viewer.AnswerFlushesQueue | web/pages/mobile-viewer.js:141-151 | the remote description is set first, then each queued candidate in order, and the queue ends empty |
| Viewer.AnswerAppliedOnce | web/pages/mobile-viewer.js:135-143 | once the answer is in, further answer polls change nothing |
| Negotiation.AddAll | web/pages/mobile-viewer.js:148-150 | one candidate application per candidate, in order |
| Negotiation.CandidateRecord | web/pages/mobile-viewer.js:90-93 | a published candidate holds the candidate and the time |
| Negotiation.CandidatePath | web/pages/connect-stream.js:125 | for one-segment owner and box, the slot is `signals/{owner}/{box}/{now}` |
| Negotiation.SlotPath | web/pages/mobile-viewer.js:108 | for one-segment ids, `signals/${id}/offer` (and likewise the sharer's answer slot) is the three-segment path `signals/{id}/{slot}` |
| Negotiation.SameMillisecondOverwrites | web/pages/connect-stream.js:125-128 | two candidates gathered in the same millisecond share a slot, so the later write replaces the earlier |
| Negotiation.CommitAppend | web/pages/api/signal.js:26-27 | committing a log in two pieces is committing it at once |
| Negotiation.CommitNoWrites | web/pages/mobile-viewer.js:104 | connection calls change nothing in the store |
| Negotiation.CommitLastWrite | web/pages/mobile-viewer.js:104-112 | a log whose only write is its last effect commits that one PUT |
| Negotiation.AddsAfterRemoteFlush | web/pages/mobile-viewer.js:141-151 | setting the remote description, then applying candidates, keeps them after it |
| Negotiation.AddsAfterRemoteExtend | web/pages/connect-stream.js:196-197 | once a remote description is set, any effects may follow |
| Negotiation.AddsAfterRemoteNoAdds | web/pages/connect-stream.js:161-184 | effects that apply no candidate can always follow |
| Negotiation.RemoteSetInAppend | web/pages/mobile-viewer.js:141 | a log has a remote description iff one of its parts does |
| Store.PutPut | web/pages/api/signal.js:26-27 | a second PUT to the same path replaces the first completely |
| Store.AtPutSame | web/pages/api/signal.js:26-27 | what a PUT wrote is read back |
| Store.AtPutOther | web/pages/api/signal.js:26-27 | a PUT changes no path that is neither above nor below it |
| Store.AtPutChild | web/pages/connect-stream.js:42 | a PUT one level below a node rewrites exactly one member of it |
| Store.ParseEmpty | web/pages/api/signal.js:26 | an empty interpolated id names no segment at all |
| Text.TrimToUpper | web/pages/dashboard.js:16 | trimming and upper-casing commute |
| Text.ToUpperHasNoLower | web/pages/dashboard.js:16 | an upper-cased string has no lower-case letter |
| Text.TrimIsInnerSlice | web/pages/dashboard.js:16 | `trim` keeps a slice with only white space before and after it, and that slice neither starts nor ends with white space |
| Json.NatToStringInjective | web/pages/connect-stream.js:125 | different milliseconds give different candidate keys |
| Json.AssignAllLookup | web/pages/api/peers.js:32 | spreading an object with distinct keys: its keys take its values, other keys keep theirs |
| Scenarios.SharerNeverMatched | web/pages/dashboard.js:26 | a sharer's record, after any heartbeats, is never matched by the dashboard |
| Scenarios.SharerAloneNotFound | web/pages/connect-stream.js:33-38 | with only a sharer registered, any typed code, its own included, is not found |
| Scenarios.GuestRegistered | web/pages/connect.js:24-34 | a guest's registration through the route leaves one entry, keyed by its id, that matches its code |
| Scenarios.GuestFoundByCode | web/pages/dashboard.js:16-32 | a registered guest is found from its code typed in any case, and the dashboard opens its remote page |
| Scenarios.RegisteredCodeFound | web/pages/dashboard.js:25-32 | a registered code, typed in any case, navigates to the registering id |
| Scenarios.CleanTypedCode | web/pages/dashboard.js:16 | a typed form of a guest code cleans back to that code |
| Scenarios.OnlyEntryFound | web/pages/dashboard.js:25-32 | a lone matching entry is where the dashboard goes |
| Scenarios.OnlyEntryNotFound | web/pages/dashboard.js:33-35 | a lone non-matching entry gives not-found |
| Scenarios.SharerStored | web/pages/connect-stream.js:33 | registration on an empty database leaves one entry |
| Scenarios.GuestHeartbeatIsUpsert | web/pages/connect.js:51-56 | a heartbeat after registration leaves the store as the heartbeat alone would |
| Scenarios.ViewerByCodeMissesSharer | web/pages/mobile-viewer.js:37 | an offer addressed by access code never reaches a sharer's offer slot |
| Scenarios.OfferLands | web/pages/mobile-viewer.js:108-112 | the viewer's offer is stored at `signals/{peerId}/offer` |
| Scenarios.AnswerLands | web/pages/connect-stream.js:181-184 | a fresh sharer answers with the four steps, and the answer is stored at `signals/{peerId}/answer` |
| Scenarios.Handshake | web/pages/connect-stream.js:161-184 | through the store, each side's remote description is the other side's local one |
| Scenarios.ViewerTakesAnswer | web/pages/mobile-viewer.js:128-160 | a started viewer polling a reply that carries the answer sets it as remote description, with an empty queue to flush, and stops polling for answers |

## Left out

- WebRTC internals: descriptions and candidates are opaque JSON values. `getDisplayMedia`, track handling, ICE gathering and `RTCIceCandidate` construction are not modelled.
- `addIceCandidate` failures are left out. In `connect-stream.js` each failure is caught per entry and changes nothing the model tracks. In `mobile-viewer.js` a failure during the flush is not modelled.
- Firebase SDK and REST plumbing: writes and reads are atomic steps on one JSON tree. Dropping of null values and escaping of URL-reserved characters in keys are not modelled.
- `ToNumber` of strings is treated as NaN. `lastSeen` is only ever written as a number.
- `toUpperCase` is modelled on ASCII letters only. Non-ASCII input is outside what the codes use.
- Timers (`setInterval`, `setTimeout`, the 500 ms sleep) become discrete steps. `Date.now()` and `Math.random()` become parameters. One `now` serves as both a candidate's key and its timestamp.
- Concurrency: every callback runs as one atomic step. Interleavings inside a step are not modelled, e.g. a poll firing during the answer flush.
- `cleanup`, stale closures, intervals that are never cleared, and peer removal on unmount are not modelled.
- UI: rendering, logging, video playback and most status texts. Only the status texts that the modelled branches decide are kept.
- Truthy bodies that are not objects (a string, a number) are outside what the store holds at the candidate nodes. The model reads the own entries of an object body and nothing from any other body.
- Sharer.Initial: a rejected registration write (`web/pages/connect-stream.js` lines 33-38) is not modelled. There the page stops before starting the heartbeat and the offer listener, while the model lets offers and candidates arrive after `Initial` regardless. The model's runs therefore include every run of the page, so the invariants proved over all runs still hold for it.
- Store.Put: a new key is appended after the existing ones, so reading a node back gives its children in write order. Firebase returns a node's children ordered by key. The millisecond candidate keys are too large to be array indices, so `Object.entries`/`Object.values` list them, like the peer ids, in the order the response body creates them. The lemmas about a fetched body (`Dashboard.StopAt`, `PeersApi.PeersAreFreshEntriesInOrder`, `Sharer.ListenerAppliesEveryEntry`, `Viewer.PolledCandidates`) take its members in the order given, so they hold for whatever order the response has; the model does not derive that order from the store.
- `web/pages/api/auth.js`, `agent/src/index.js`, `web/pages/remote.js`, `web/pages/index.js`, `web/pages/_app.js`, `web/components/InstallPrompt.jsx` and `generate-source-files.py`: outside the signalling core.
- Sharer.OnOffer: the outcome of `handleOffer` is a parameter naming the step that throws. The model does not say why a step fails.
- Sharer.OnViewerCandidates: its contract only says the log grows by candidate applications. Exactly which entries are applied is stated by `Sharer.ListenerAppliesEveryEntry`.
- Viewer.PollAnswer: whether the browser accepts the answer is a parameter. A rejected answer is retried like a missing one, as the catch branch does.
- Negotiation.CandidatePath: the path is stated only for owner and box ids that are single path segments.
