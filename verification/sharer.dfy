/** The screen-sharing page (web/pages/connect-stream.js). It registers itself
    directly in the store, refreshes `lastSeen` every 10 seconds, and answers
    the first offer that appears in `signals/{peerId}/offer`. After the
    answer is published, it applies the viewer's ICE candidates as they
    appear.

    Each store callback is one atomic step of `Step`. What the browser
    returns (the answer description, which step throws, the connection
    state) is a parameter of the step. */
module Sharer {
  import opened Wrappers
  import opened Json
  import opened Store
  import opened Text
  import opened Negotiation

  // ---------------------------------------------------------------------------
  // Identity and access code

  /** `PC-${Math.random().toString(36).substring(2, 10)}`. */
  function SharerPeerId(t: string): (id: string)
    ensures IsRandomText(t) ==> IsKey(id)
  {
    var id := "PC-" + Substring(t, 2, 10);
    if IsRandomText(t) then
      assert forall i :: 3 <= i < |id| ==> IsBase36Digit(id[i]);
      id
    else id
  }

  /** The 32 symbols of the access code: no I, O, 0 or 1. */
  const Alphabet: string := "ABCDEFGHJKLMNPQRSTUVWXYZ23456789"

  /** Six results of `Math.floor(Math.random() * chars.length)`. */
  predicate ValidIndices(idx: seq<nat>) {
    |idx| == 6 && forall i :: 0 <= i < 6 ==> idx[i] < |Alphabet|
  }

  function GenerateCode(idx: seq<nat>): (code: string)
    requires ValidIndices(idx)
    ensures |code| == 7 && code[3] == '-'
    ensures forall i :: 0 <= i < 7 && i != 3 ==> code[i] in Alphabet
  {
    [Alphabet[idx[0]], Alphabet[idx[1]], Alphabet[idx[2]]] + "-"
      + [Alphabet[idx[3]], Alphabet[idx[4]], Alphabet[idx[5]]]
  }

  /** The position of a symbol in `Alphabet`, from its character code; 32
      for a character outside it. */
  function SymbolIndex(c: char): nat {
    if 'A' <= c <= 'H' then c as int - 'A' as int
    else if 'J' <= c <= 'N' then c as int - 'J' as int + 8
    else if 'P' <= c <= 'Z' then c as int - 'P' as int + 13
    else if '2' <= c <= '9' then c as int - '2' as int + 24
    else 32
  }

  /** The indices a code was drawn from. */
  function CodeIndices(code: string): seq<nat>
    requires |code| == 7
  {
    [SymbolIndex(code[0]), SymbolIndex(code[1]), SymbolIndex(code[2]),
     SymbolIndex(code[4]), SymbolIndex(code[5]), SymbolIndex(code[6])]
  }

  // ---------------------------------------------------------------------------
  // Presence record

  /** The record written at `peers/{peerId}`: no `online` property. */
  function PeerRecord(peerId: string, code: string, hostname: string, now: int): (r: Json)
    ensures Field(r, "online") == None
    ensures Field(r, "id") == Some(Str(peerId)) && Field(r, "code") == Some(Str(code))
    ensures Field(r, "hostname") == Some(Str(if hostname == "" then "Desktop" else hostname))
    ensures Field(r, "lastSeen") == Some(Num(now))
  {
    var ms := [ Member("id", Str(peerId))
              , Member("code", Str(code))
              , Member("hostname", Str(if hostname == "" then "Desktop" else hostname))
              , Member("lastSeen", Num(now)) ];
    IndexOfAgrees(ms, "id", 0);
    IndexOfAgrees(ms, "code", 1);
    IndexOfAgrees(ms, "hostname", 2);
    IndexOfAgrees(ms, "lastSeen", 3);
    IndexOfAgrees(ms, "online", 4);
    Obj(ms)
  }

  function Register(store: Json, peerId: string, code: string, hostname: string, now: int): Json {
    Put(store, ParsePath("peers/" + peerId), PeerRecord(peerId, code, hostname, now))
  }

  /** One heartbeat tick: a PUT of the bare number at `peers/{peerId}/lastSeen`. */
  function Heartbeat(store: Json, peerId: string, now: int): Json {
    Put(store, ParsePath("peers/" + peerId + "/lastSeen"), Num(now))
  }

  /** Heartbeat ticks at the given times, in order. */
  function Heartbeats(store: Json, peerId: string, times: seq<int>): Json
    decreases |times|
  {
    if |times| == 0 then store else Heartbeats(Heartbeat(store, peerId, times[0]), peerId, times[1..])
  }

  // ---------------------------------------------------------------------------
  // Connection state

  datatype Display = Display(status: string, connected: bool)

  /** The states `onconnectionstatechange` reacts to; others change nothing. */
  predicate Decisive(state: string) {
    state == "connected" || state == "disconnected" || state == "failed"
  }

  function OnConnectionState(d: Display, state: string): (r: Display)
    ensures Decisive(state) ==> r.connected == (state == "connected")
    ensures !Decisive(state) ==> r == d
  {
    if state == "connected" then Display("Connected - Viewer is watching", true)
    else if state == "disconnected" || state == "failed" then Display("Disconnected", false)
    else d
  }

  /** The display after a run of connection states, oldest first. */
  function AfterStates(d: Display, states: seq<string>): Display
    decreases |states|
  {
    if |states| == 0 then d
    else OnConnectionState(AfterStates(d, states[..|states| - 1]), states[|states| - 1])
  }

  // ---------------------------------------------------------------------------
  // Answering an offer

  /** The awaited steps of `handleOffer`, in order. */
  datatype Stage = Capture | ApplyOffer | MakeAnswer | ApplyAnswer | SendAnswer

  /** How one run of `handleOffer` ends: normally, or by the step that throws. */
  datatype Outcome = Completes | FailsAt(stage: Stage)

  /** How many of the four logged effects take place before the outcome. */
  function Completed(o: Outcome): (k: nat)
    ensures k <= 4 && (k == 4 <==> o.Completes?)
  {
    match o
    case Completes => 4
    case FailsAt(Capture) => 0
    case FailsAt(ApplyOffer) => 0
    case FailsAt(MakeAnswer) => 1
    case FailsAt(ApplyAnswer) => 2
    case FailsAt(SendAnswer) => 3
  }

  function AnswerRecord(answer: Json, now: int): (r: Json)
    ensures Field(r, "signal") == Some(answer)
  {
    var ms := [Member("signal", answer), Member("timestamp", Num(now))];
    IndexOfAgrees(ms, "signal", 0);
    Obj(ms)
  }

  /** Set the offer as remote description, create the answer, set it as
      local description, publish it. */
  function AnswerSteps(peerId: string, offer: Json, answer: Json, now: int): seq<Effect> {
    [ SetRemote(Field(offer, "signal"))
    , CreateAnswer
    , SetLocal(answer)
    , Write(SlotPath(peerId, "answer"), AnswerRecord(answer, now)) ]
  }

  datatype Sharer = Sharer(
    peerId: string,
    hasAnswered: bool,   // hasAnsweredRef
    remoteSet: bool,     // the current connection has a remote description
    listening: bool,     // the viewer-candidate listener is attached
    display: Display,
    log: seq<Effect>)

  function Initial(peerId: string): Sharer {
    Sharer(peerId, false, false, false, Display("Initializing...", false), [])
  }

  /** The offer listener. A notification is handled only when its data is
      truthy and no answer is under way; the flag is set first and reset if
      any step throws. */
  function OnOffer(s: Sharer, data: Json, answer: Json, outcome: Outcome, now: int): (t: Sharer)
    ensures !Truthy(Some(data)) || s.hasAnswered ==> t == s
    ensures Truthy(Some(data)) && !s.hasAnswered ==>
              && t.peerId == s.peerId && s.log <= t.log
              && t.log[|s.log|..] <= AnswerSteps(s.peerId, data, answer, now)
              && (t.hasAnswered <==> t.log[|s.log|..] == AnswerSteps(s.peerId, data, answer, now))
  {
    if !Truthy(Some(data)) || s.hasAnswered then s
    else
      var k := Completed(outcome);
      var steps := AnswerSteps(s.peerId, data, answer, now);
      var t := s.(hasAnswered := outcome.Completes?,
                  remoteSet := if outcome == FailsAt(Capture) then s.remoteSet else k >= 1,
                  listening := s.listening || outcome.Completes?,
                  log := s.log + steps[..k]);
      assert t.log[|s.log|..] == steps[..k];
      t
  }

  /** `data.candidate` of each entry in store order; reading it from a null
      entry throws inside that entry's own `try`, so the entry is skipped. */
  function ViewerCandidates(ms: seq<Member>): (cs: seq<Option<Json>>)
    ensures |cs| <= |ms|
    ensures (forall i :: 0 <= i < |ms| ==> ms[i].value != Null) ==>
              |cs| == |ms| && forall i :: 0 <= i < |ms| ==> cs[i] == Field(ms[i].value, "candidate")
  {
    if |ms| == 0 then []
    else
      var rest := ViewerCandidates(ms[1..]);
      if ms[0].value == Null then rest else [Field(ms[0].value, "candidate")] + rest
  }

  /** The viewer-candidate listener: every entry of the node, old or new, is
      applied when the connection has a remote description, and skipped (not
      queued) otherwise. */
  function OnViewerCandidates(s: Sharer, snapshot: Json): (t: Sharer)
    ensures !s.listening || !s.remoteSet || !Truthy(Some(snapshot)) ==> t == s
    ensures t == s.(log := t.log) && s.log <= t.log
    ensures forall i :: |s.log| <= i < |t.log| ==> t.log[i].AddCandidate?
  {
    if !s.listening || !Truthy(Some(snapshot)) || !s.remoteSet then s
    else s.(log := s.log + AddAll(ViewerCandidates(OwnEntries(snapshot))))
  }

  /** `pc.onicecandidate`: a non-null candidate is written under the
      sharer's own `sharerCandidates`, keyed by the millisecond. */
  function OnLocalCandidate(s: Sharer, cand: Option<Json>, now: nat): (t: Sharer)
    ensures cand.None? ==> t == s
    ensures cand.Some? ==>
              t.log == s.log + [Write(CandidatePath(s.peerId, "sharerCandidates", now),
                                      CandidateRecord(cand.value, now))]
  {
    match cand
    case None => s
    case Some(c) =>
      s.(log := s.log + [Write(CandidatePath(s.peerId, "sharerCandidates", now), CandidateRecord(c, now))])
  }

  datatype Event =
    | OfferChanged(data: Json, answer: Json, outcome: Outcome, now: int)
    | ViewerCandidatesChanged(snapshot: Json)
    | ConnectionChanged(state: string)
    | LocalCandidate(cand: Option<Json>, at: nat)

  function Step(s: Sharer, e: Event): (t: Sharer)
    ensures t.peerId == s.peerId
  {
    match e
    case OfferChanged(data, answer, outcome, now) => OnOffer(s, data, answer, outcome, now)
    case ViewerCandidatesChanged(snapshot) => OnViewerCandidates(s, snapshot)
    case ConnectionChanged(state) => s.(display := OnConnectionState(s.display, state))
    case LocalCandidate(cand, at) => OnLocalCandidate(s, cand, at)
  }

  function Run(s: Sharer, es: seq<Event>): (t: Sharer)
    ensures t.peerId == s.peerId
    decreases |es|
  {
    if |es| == 0 then s else Run(Step(s, es[0]), es[1..])
  }

  // ---------------------------------------------------------------------------
  // The invariant of the answering side

  predicate IsAnswerWrite(e: Effect, peerId: string) {
    e.Write? && e.path == ["signals", peerId, "answer"]
  }

  /** How many answers the log publishes. */
  function AnswersSent(log: seq<Effect>, peerId: string): nat
    decreases |log|
  {
    if |log| == 0 then 0
    else (if IsAnswerWrite(log[0], peerId) then 1 else 0) + AnswersSent(log[1..], peerId)
  }

  /** At most one answer is ever published and the flag says whether it was;
      the candidate listener exists only on a connection with a remote
      description; no candidate is applied before a remote description. */
  predicate Inv(s: Sharer) {
    && IsKey(s.peerId)
    && (s.listening ==> s.hasAnswered && s.remoteSet)
    && (s.remoteSet ==> RemoteSetIn(s.log))
    && AddsAfterRemote(s.log)
    && AnswersSent(s.log, s.peerId) <= 1
    && (AnswersSent(s.log, s.peerId) == 1 <==> s.hasAnswered)
  }

  lemma {:induction false} AnswersSentAppend(a: seq<Effect>, b: seq<Effect>, peerId: string)
    ensures AnswersSent(a + b, peerId) == AnswersSent(a, peerId) + AnswersSent(b, peerId)
    decreases |a|
  {
    if |a| == 0 {
      assert a + b == b;
    } else {
      assert (a + b)[0] == a[0];
      assert (a + b)[1..] == a[1..] + b;
      AnswersSentAppend(a[1..], b, peerId);
    }
  }

  lemma NoAnswerInAdds(cs: seq<Option<Json>>, peerId: string)
    ensures AnswersSent(AddAll(cs), peerId) == 0
    decreases |cs|
  {
    if |cs| > 0 {
      assert AddAll(cs)[1..] == AddAll(cs[1..]);
      NoAnswerInAdds(cs[1..], peerId);
    }
  }

  /** Only the last of the four steps publishes, and none applies a
      candidate. */
  lemma {:induction false} AnswerStepsFacts(peerId: string, offer: Json, answer: Json, now: int, k: nat)
    requires IsKey(peerId) && k <= 4
    ensures var done := AnswerSteps(peerId, offer, answer, now)[..k];
            && AnswersSent(done, peerId) == (if k == 4 then 1 else 0)
            && NoAdds(done)
            && (k >= 1 ==> done[0].SetRemote?)
    decreases k
  {
    var steps := AnswerSteps(peerId, offer, answer, now);
    if k > 0 {
      AnswerStepsFacts(peerId, offer, answer, now, k - 1);
      assert steps[..k] == steps[..k - 1] + [steps[k - 1]];
      AnswersSentAppend(steps[..k - 1], [steps[k - 1]], peerId);
      assert [steps[k - 1]][1..] == [];
    }
  }

  lemma InitialInv(peerId: string)
    requires IsKey(peerId)
    ensures Inv(Initial(peerId))
  {
  }

  lemma OnOfferKeepsInv(s: Sharer, data: Json, answer: Json, outcome: Outcome, now: int)
    requires Inv(s)
    ensures Inv(OnOffer(s, data, answer, outcome, now))
  {
    if Truthy(Some(data)) && !s.hasAnswered {
      var k := Completed(outcome);
      var done := AnswerSteps(s.peerId, data, answer, now)[..k];
      AnswerStepsFacts(s.peerId, data, answer, now, k);
      AnswersSentAppend(s.log, done, s.peerId);
      AddsAfterRemoteNoAdds(s.log, done);
      if k >= 1 {
        assert (s.log + done)[|s.log|] == done[0];
      }
    }
  }

  lemma OnViewerCandidatesKeepsInv(s: Sharer, snapshot: Json)
    requires Inv(s)
    ensures Inv(OnViewerCandidates(s, snapshot))
  {
    if s.listening && Truthy(Some(snapshot)) && s.remoteSet {
      var adds := AddAll(ViewerCandidates(OwnEntries(snapshot)));
      AddsAfterRemoteExtend(s.log, adds);
      AnswersSentAppend(s.log, adds, s.peerId);
      NoAnswerInAdds(ViewerCandidates(OwnEntries(snapshot)), s.peerId);
    }
  }

  lemma OnLocalCandidateKeepsInv(s: Sharer, cand: Option<Json>, now: nat)
    requires Inv(s)
    ensures Inv(OnLocalCandidate(s, cand, now))
  {
    if cand.Some? {
      var w := [Write(CandidatePath(s.peerId, "sharerCandidates", now), CandidateRecord(cand.value, now))];
      assert |w[0].path| == 4;
      assert [w[0]][1..] == [];
      AnswersSentAppend(s.log, w, s.peerId);
      AddsAfterRemoteNoAdds(s.log, w);
    }
  }

  lemma StepKeepsInv(s: Sharer, e: Event)
    requires Inv(s)
    ensures Inv(Step(s, e))
  {
    match e
    case OfferChanged(data, answer, outcome, now) => OnOfferKeepsInv(s, data, answer, outcome, now);
    case ViewerCandidatesChanged(snapshot) => OnViewerCandidatesKeepsInv(s, snapshot);
    case ConnectionChanged(state) =>
    case LocalCandidate(cand, at) => OnLocalCandidateKeepsInv(s, cand, at);
  }

  lemma {:induction false} RunKeepsInv(s: Sharer, es: seq<Event>)
    requires Inv(s)
    ensures Inv(Run(s, es))
    decreases |es|
  {
    if |es| > 0 {
      StepKeepsInv(s, es[0]);
      RunKeepsInv(Step(s, es[0]), es[1..]);
    }
  }

  // ---------------------------------------------------------------------------
  // Properties

  /** Whatever offer notifications, failures, candidates and state changes
      arrive, the sharer publishes at most one answer, and never applies a
      candidate before a remote description. */
  lemma AtMostOneAnswer(peerId: string, es: seq<Event>)
    requires IsKey(peerId)
    ensures AnswersSent(Run(Initial(peerId), es).log, peerId) <= 1
    ensures AddsAfterRemote(Run(Initial(peerId), es).log)
  {
    InitialInv(peerId);
    RunKeepsInv(Initial(peerId), es);
  }

  /** Once an offer has been answered, further notifications change
      nothing. */
  lemma RepeatedOfferIgnored(s: Sharer, d1: Json, a1: Json, t1: int, d2: Json, a2: Json, o2: Outcome, t2: int)
    requires Truthy(Some(d1)) && !s.hasAnswered
    ensures var once := OnOffer(s, d1, a1, Completes, t1);
            OnOffer(once, d2, a2, o2, t2) == once
  {
  }

  /** A failed attempt clears the flag, so the next offer is answered in
      full. */
  lemma RetryAfterFailure(s: Sharer, d1: Json, a1: Json, stage: Stage, t1: int, d2: Json, a2: Json, t2: int)
    requires Truthy(Some(d1)) && Truthy(Some(d2)) && !s.hasAnswered
    ensures var failed := OnOffer(s, d1, a1, FailsAt(stage), t1);
            var retried := OnOffer(failed, d2, a2, Completes, t2);
            && !failed.hasAnswered && retried.hasAnswered
            && retried.log == failed.log + AnswerSteps(s.peerId, d2, a2, t2)
  {
    var failed := OnOffer(s, d1, a1, FailsAt(stage), t1);
    var retried := OnOffer(failed, d2, a2, Completes, t2);
    assert retried.log[..|failed.log|] == failed.log;
  }

  /** Candidates that appear while the connection has no remote description
      are dropped: nothing is applied and nothing is kept for later. */
  lemma EarlyViewerCandidatesDropped(s: Sharer, snapshot: Json)
    requires !s.remoteSet
    ensures OnViewerCandidates(s, snapshot) == s
  {
  }

  /** On a reachable state the gate never drops anything: the listener is
      attached only once the remote description is set, so every non-null
      entry of the node is applied, in store order. */
  lemma ListenerAppliesEveryEntry(s: Sharer, snapshot: Json)
    requires Inv(s) && s.listening && snapshot.Obj?
    requires forall i :: 0 <= i < |snapshot.members| ==> snapshot.members[i].value != Null
    ensures var t := OnViewerCandidates(s, snapshot);
            && |t.log| == |s.log| + |snapshot.members|
            && forall i :: 0 <= i < |snapshot.members| ==>
                 t.log[|s.log| + i] == AddCandidate(Field(snapshot.members[i].value, "candidate"))
  {
  }

  /** Nothing remembers which candidates were applied: every change of the
      node applies all of its entries again. */
  lemma CandidatesReapplied(s: Sharer, snapshot: Json)
    requires s.listening && s.remoteSet && Truthy(Some(snapshot))
    ensures var adds := AddAll(ViewerCandidates(OwnEntries(snapshot)));
            OnViewerCandidates(OnViewerCandidates(s, snapshot), snapshot).log == s.log + adds + adds
  {
  }

  /** The connected flag follows the last decisive state of a run; with no
      decisive state the display is untouched. */
  lemma {:induction false} ConnectedFollowsLastDecisive(d: Display, states: seq<string>)
    ensures (forall i :: 0 <= i < |states| ==> !Decisive(states[i])) ==> AfterStates(d, states) == d
    ensures forall i :: 0 <= i < |states| && Decisive(states[i])
                        && (forall j :: i < j < |states| ==> !Decisive(states[j])) ==>
              AfterStates(d, states).connected == (states[i] == "connected")
    decreases |states|
  {
    if |states| > 0 {
      var init, last := states[..|states| - 1], states[|states| - 1];
      ConnectedFollowsLastDecisive(d, init);
      assert forall i :: 0 <= i < |init| ==> init[i] == states[i];
      assert AfterStates(d, states) == OnConnectionState(AfterStates(d, init), last);
      if Decisive(last) {
        assert AfterStates(d, states).connected == (last == "connected");
      } else {
        assert AfterStates(d, states) == AfterStates(d, init);
      }
    }
  }

  /** The code is `XXX-XXX` and the indices it was drawn from can be read
      back from it. */
  lemma CodeRoundTrip(idx: seq<nat>)
    requires ValidIndices(idx)
    ensures CodeIndices(GenerateCode(idx)) == idx
  {
    var code := GenerateCode(idx);
    CodeSymbols(idx);
    SymbolOf(idx[0]);
    SymbolOf(idx[1]);
    SymbolOf(idx[2]);
    SymbolOf(idx[3]);
    SymbolOf(idx[4]);
    SymbolOf(idx[5]);
  }

  lemma CodeSymbols(idx: seq<nat>)
    requires ValidIndices(idx)
    ensures var code := GenerateCode(idx);
            && code[0] == Alphabet[idx[0]] && code[1] == Alphabet[idx[1]] && code[2] == Alphabet[idx[2]]
            && code[4] == Alphabet[idx[3]] && code[5] == Alphabet[idx[4]] && code[6] == Alphabet[idx[5]]
  {
  }

  /** `SymbolIndex` inverts indexing into `Alphabet`. */
  lemma SymbolOf(i: nat)
    requires i < |Alphabet|
    ensures SymbolIndex(Alphabet[i]) == i
  {
  }

  /** The characters easily mistaken for one another never appear. */
  lemma CodeAvoidsLookalikes(idx: seq<nat>)
    requires ValidIndices(idx)
    ensures forall i :: 0 <= i < 7 ==> GenerateCode(idx)[i] !in {'I', 'O', '0', '1'}
  {
    forall i | 0 <= i < |Alphabet| ensures Alphabet[i] !in {'I', 'O', '0', '1'} {
      SymbolOf(i);
    }
  }

  /** A heartbeat rewrites `lastSeen` of the peer's record and nothing else
      in the store. */
  lemma HeartbeatTouchesOnlyLastSeen(store: Json, peerId: string, now: int, k: string, q: Path)
    requires IsKey(peerId) && At(store, ["peers", peerId]).Obj?
    ensures var after := At(Heartbeat(store, peerId, now), ["peers", peerId]);
            && after.Obj?
            && Field(after, "lastSeen") == Some(Num(now))
            && (k != "lastSeen" ==> Field(after, k) == Field(At(store, ["peers", peerId]), k))
    ensures !(["peers", peerId, "lastSeen"] <= q) && !(q <= ["peers", peerId, "lastSeen"]) ==>
              At(Heartbeat(store, peerId, now), q) == At(store, q)
  {
    HeartbeatPut(store, peerId, now);
    var before := At(store, ["peers", peerId]);
    assert At(Heartbeat(store, peerId, now), ["peers", peerId])
        == Obj(Assign(Children(before), "lastSeen", Num(now))) by {
      AtPutChild(store, ["peers", peerId], "lastSeen", Num(now));
      assert ["peers", peerId] + ["lastSeen"] == ["peers", peerId, "lastSeen"];
    }
    if !(["peers", peerId, "lastSeen"] <= q) && !(q <= ["peers", peerId, "lastSeen"]) {
      AtPutOther(store, ["peers", peerId, "lastSeen"], q, Num(now));
    }
  }

  /** A heartbeat for a one-segment id is a PUT at `peers/{id}/lastSeen`. */
  lemma HeartbeatPut(store: Json, peerId: string, now: int)
    requires IsKey(peerId)
    ensures Heartbeat(store, peerId, now) == Put(store, ["peers", peerId, "lastSeen"], Num(now))
  {
    ParseKeyPath("peers", peerId, "lastSeen");
    assert "peers/" + peerId + "/lastSeen" == "peers" + "/" + peerId + "/" + "lastSeen";
  }

  /** A peer registered by this page never acquires an `online` property:
      neither the registration nor any number of heartbeats writes one. */
  lemma {:induction false} NeverOnline(store: Json, peerId: string, code: string, hostname: string,
                                       t0: int, times: seq<int>)
    requires IsKey(peerId)
    ensures var s := Heartbeats(Register(store, peerId, code, hostname, t0), peerId, times);
            && At(s, ["peers", peerId]).Obj?
            && Field(At(s, ["peers", peerId]), "online") == None
            && Field(At(s, ["peers", peerId]), "code") == Some(Str(code))
  {
    ParseKeyPair("peers", peerId);
    assert "peers/" + peerId == "peers" + "/" + peerId;
    AtPutSame(store, ["peers", peerId], PeerRecord(peerId, code, hostname, t0));
    HeartbeatsKeepOffline(Register(store, peerId, code, hostname, t0), peerId, code, times);
  }

  lemma {:induction false} HeartbeatsKeepOffline(store: Json, peerId: string, code: string, times: seq<int>)
    requires IsKey(peerId) && At(store, ["peers", peerId]).Obj?
    requires Field(At(store, ["peers", peerId]), "online") == None
    requires Field(At(store, ["peers", peerId]), "code") == Some(Str(code))
    ensures var s := Heartbeats(store, peerId, times);
            && At(s, ["peers", peerId]).Obj?
            && Field(At(s, ["peers", peerId]), "online") == None
            && Field(At(s, ["peers", peerId]), "code") == Some(Str(code))
    decreases |times|
  {
    if |times| > 0 {
      HeartbeatTouchesOnlyLastSeen(store, peerId, times[0], "online", []);
      HeartbeatTouchesOnlyLastSeen(store, peerId, times[0], "code", []);
      HeartbeatsKeepOffline(Heartbeat(store, peerId, times[0]), peerId, code, times[1..]);
    }
  }
}
