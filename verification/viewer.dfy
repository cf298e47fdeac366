/** The viewing page (web/pages/mobile-viewer.js). It publishes an offer to
    `signals/{targetId}/offer` and then polls two nodes every 1.2 seconds:
    the answer, and the sharer's ICE candidates. Candidates that arrive
    before the answer are queued without structural duplicates. Applying the
    answer flushes the queue.

    Each poll callback is one atomic step. The store read (`None` when the
    fetch or its JSON parse throws) and whether the browser accepts the
    answer are parameters of the step. */
module Viewer {
  import opened Wrappers
  import opened Json
  import opened Store
  import opened Negotiation

  /** `targetPeerId || code`. `None` when both are falsy: then the page
      does nothing. */
  function TargetOf(peer: Option<string>, code: Option<string>): (r: Option<string>)
    ensures r.Some? <==> (peer.Some? && peer.value != "") || (code.Some? && code.value != "")
    ensures r.Some? && peer.Some? && peer.value != "" ==> r == peer
    ensures r.Some? ==> r.value != ""
  {
    if peer.Some? && peer.value != "" then peer
    else if code.Some? && code.value != "" then code
    else None
  }

  /** The record of the offer. The sender is always the fixed string
      `mobile-viewer`, not an id. */
  function OfferRecord(offer: Json, now: int): (r: Json)
    ensures Field(r, "signal") == Some(offer) && Field(r, "from") == Some(Str("mobile-viewer"))
  {
    var ms := [ Member("signal", offer)
              , Member("from", Str("mobile-viewer"))
              , Member("timestamp", Num(now)) ];
    IndexOfAgrees(ms, "signal", 0);
    IndexOfAgrees(ms, "from", 1);
    Obj(ms)
  }

  /** The awaited steps of `init`: create the offer, set it as local
      description, publish it. */
  datatype StartStage = Offering | Describing | Sending

  datatype StartOutcome = Started | StartFailsAt(stage: StartStage)

  datatype Viewer = Viewer(
    targetId: string,
    remoteSet: bool,                  // pc.remoteDescription is set
    pending: seq<Option<Json>>,       // pendingIce
    awaitingAnswer: bool,             // an answer poll is scheduled
    polling: bool,                    // candidate polls are scheduled
    log: seq<Effect>)

  /** `init`: the offer becomes the local description before it is
      published; polling starts only when both succeeded. */
  function Start(targetId: string, offer: Json, outcome: StartOutcome, now: int): (v: Viewer)
    ensures v.targetId == targetId && !v.remoteSet && v.pending == []
    ensures v.polling == v.awaitingAnswer == outcome.Started?
    ensures outcome.Started? ==>
              v.log == [SetLocal(offer), Write(SlotPath(targetId, "offer"), OfferRecord(offer, now))]
    ensures forall i :: 0 <= i < |v.log| && v.log[i].Write? ==> 0 < i && v.log[0] == SetLocal(offer)
    ensures NoAdds(v.log) && !RemoteSetIn(v.log)
  {
    var steps := [SetLocal(offer), Write(SlotPath(targetId, "offer"), OfferRecord(offer, now))];
    var k := match outcome
             case Started => 2
             case StartFailsAt(Sending) => 1
             case StartFailsAt(_) => 0;
    Viewer(targetId, false, [], outcome.Started?, outcome.Started?, steps[..k])
  }

  /** `pc.onicecandidate`: local candidates are never queued; a non-null one
      is written under `viewerCandidates`, keyed by the millisecond. */
  function OnLocalCandidate(v: Viewer, cand: Option<Json>, now: nat): (t: Viewer)
    ensures cand.None? ==> t == v
    ensures cand.Some? ==>
              t == v.(log := v.log + [Write(CandidatePath(v.targetId, "viewerCandidates", now),
                                            CandidateRecord(cand.value, now))])
  {
    match cand
    case None => v
    case Some(c) =>
      v.(log := v.log + [Write(CandidatePath(v.targetId, "viewerCandidates", now), CandidateRecord(c, now))])
  }

  /** One answer poll. Without a truthy `signal`, or when the browser
      rejects the answer, the next poll is scheduled and nothing changes;
      there is no bound on the number of polls. Otherwise the answer is set
      as remote description, then the queue is applied in order and
      emptied, and answer polling stops. */
  function PollAnswer(v: Viewer, read: Option<Json>, accepted: bool): (t: Viewer)
    ensures !v.awaitingAnswer || read.None? || !Truthy(Field(read.value, "signal")) || !accepted ==> t == v
    ensures v.awaitingAnswer && read.Some? && Truthy(Field(read.value, "signal")) && accepted ==>
              && t.remoteSet && t.pending == [] && !t.awaitingAnswer
              && t.log == v.log + [SetRemote(Field(read.value, "signal"))] + AddAll(v.pending)
              && t.targetId == v.targetId && t.polling == v.polling
  {
    if !v.awaitingAnswer || read.None? then v
    else
      var signal := Field(read.value, "signal");
      if !Truthy(signal) || !accepted then v
      else v.(remoteSet := true, awaitingAnswer := false, pending := [],
              log := v.log + [SetRemote(signal)] + AddAll(v.pending))
  }

  /** `v.candidate` of each value in store order. A null value throws and
      ends the whole loop, so only the entries before it count. */
  function PolledCandidates(ms: seq<Member>): (cs: seq<Option<Json>>)
    ensures |cs| <= |ms|
    ensures forall i :: 0 <= i < |cs| ==> ms[i].value != Null && cs[i] == Field(ms[i].value, "candidate")
    ensures |cs| < |ms| ==> ms[|cs|].value == Null
  {
    if |ms| == 0 || ms[0].value == Null then []
    else
      var rest := PolledCandidates(ms[1..]);
      assert forall i :: 0 < i < 1 + |rest| ==> ms[i] == ms[1..][i - 1];
      [Field(ms[0].value, "candidate")] + rest
  }

  predicate NoDups(q: seq<Option<Json>>) {
    forall i, j :: 0 <= i < j < |q| ==> q[i] != q[j]
  }

  /** The queueing branch: a candidate is appended unless one with the same
      JSON text is already queued. */
  function Enqueue(q: seq<Option<Json>>, cs: seq<Option<Json>>): (r: seq<Option<Json>>)
    ensures q <= r
    ensures forall c :: c in r <==> c in q || c in cs
    ensures forall i :: |q| <= i < |r| ==> r[i] in cs && r[i] !in q
    ensures NoDups(q) ==> NoDups(r)
    decreases |cs|
  {
    if |cs| == 0 then q
    else
      var q' := if cs[0] in q then q else q + [cs[0]];
      assert forall c :: c in cs <==> c == cs[0] || c in cs[1..];
      Enqueue(q', cs[1..])
  }

  /** Where `c` first occurs in `cs`; `|cs|` when it does not. */
  function FirstIndex(cs: seq<Option<Json>>, c: Option<Json>): (k: nat)
    ensures k <= |cs|
    ensures k < |cs| <==> c in cs
    ensures k < |cs| ==> cs[k] == c
    ensures forall i :: 0 <= i < k ==> cs[i] != c
    decreases |cs|
  {
    if |cs| == 0 || cs[0] == c then 0 else 1 + FirstIndex(cs[1..], c)
  }

  /** One candidate poll. With a remote description every polled candidate
      is applied at once, with no memory of earlier polls; without one they
      are queued and none is applied. */
  function PollCandidates(v: Viewer, read: Option<Json>): (t: Viewer)
    ensures !v.polling || read.None? || !Truthy(read) ==> t == v
    ensures v.remoteSet ==> t.pending == v.pending && v.log <= t.log
    ensures !v.remoteSet ==> t.log == v.log && v.pending <= t.pending
    ensures t == v.(pending := t.pending, log := t.log)
    ensures v.polling && read.Some? && Truthy(read) ==>
              var cs := PolledCandidates(OwnEntries(read.value));
              && (v.remoteSet ==> t.log == v.log + AddAll(cs))
              && (!v.remoteSet ==> t.pending == Enqueue(v.pending, cs))
  {
    if !v.polling || read.None? || !Truthy(read) then v
    else
      var cs := PolledCandidates(OwnEntries(read.value));
      if v.remoteSet then v.(log := v.log + AddAll(cs))
      else v.(pending := Enqueue(v.pending, cs))
  }

  datatype Event =
    | AnswerPolled(read: Option<Json>, accepted: bool)
    | CandidatesPolled(read: Option<Json>)
    | LocalCandidate(cand: Option<Json>, at: nat)

  function Step(v: Viewer, e: Event): Viewer {
    match e
    case AnswerPolled(read, accepted) => PollAnswer(v, read, accepted)
    case CandidatesPolled(read) => PollCandidates(v, read)
    case LocalCandidate(cand, at) => OnLocalCandidate(v, cand, at)
  }

  function Run(v: Viewer, es: seq<Event>): Viewer
    decreases |es|
  {
    if |es| == 0 then v else Run(Step(v, es[0]), es[1..])
  }

  /** The queue has no structural duplicates and is empty once a remote
      description is set; the flag agrees with the log; no candidate is
      applied before a remote description. */
  predicate Inv(v: Viewer) {
    && NoDups(v.pending)
    && (v.remoteSet ==> v.pending == [] && !v.awaitingAnswer)
    && (v.remoteSet <==> RemoteSetIn(v.log))
    && AddsAfterRemote(v.log)
  }

  // ---------------------------------------------------------------------------
  // Lemmas

  /** The queue grows in polling order: the appended candidates appear in
      the order of their first occurrence in the poll. */
  lemma {:induction false} EnqueueKeepsPollOrder(q: seq<Option<Json>>, cs: seq<Option<Json>>)
    ensures var r := Enqueue(q, cs);
            forall i, j :: |q| <= i < j < |r| ==> FirstIndex(cs, r[i]) < FirstIndex(cs, r[j])
    decreases |cs|
  {
    if |cs| > 0 {
      var q' := if cs[0] in q then q else q + [cs[0]];
      var r := Enqueue(q', cs[1..]);
      assert r == Enqueue(q, cs) by { EnqueueHead(q, cs); }
      EnqueueKeepsPollOrder(q', cs[1..]);
      forall i, j | |q| <= i < j < |r|
        ensures FirstIndex(cs, r[i]) < FirstIndex(cs, r[j])
      {
        PairInPollOrder(q, q', cs, r, i, j);
      }
    }
  }

  /** The step of the order proof for one pair of appended candidates: the
      head of the poll, if appended, comes first; the others keep the order
      they have in the rest of the poll. */
  lemma PairInPollOrder(q: seq<Option<Json>>, q': seq<Option<Json>>, cs: seq<Option<Json>>,
                        r: seq<Option<Json>>, i: nat, j: nat)
    requires |cs| > 0 && q' == (if cs[0] in q then q else q + [cs[0]]) && r == Enqueue(q', cs[1..])
    requires |q| <= i < j < |r|
    requires |q'| <= i ==> FirstIndex(cs[1..], r[i]) < FirstIndex(cs[1..], r[j])
    ensures FirstIndex(cs, r[i]) < FirstIndex(cs, r[j])
  {
    LaterFirstIndex(q', cs, r, j);
    if i < |q'| {
      assert r[i] == q'[i] == cs[0];
    } else {
      LaterFirstIndex(q', cs, r, i);
    }
  }

  /** A candidate appended after the first one of the poll first occurs in
      the rest of the poll. */
  lemma LaterFirstIndex(q': seq<Option<Json>>, cs: seq<Option<Json>>, r: seq<Option<Json>>, i: nat)
    requires |cs| > 0 && cs[0] in q' && r == Enqueue(q', cs[1..]) && |q'| <= i < |r|
    ensures FirstIndex(cs, r[i]) == 1 + FirstIndex(cs[1..], r[i])
  {
    assert r[i] !in q';
  }

  /** A poll of distinct candidates none of which is queued yet is appended
      as it is, in polling order. */
  lemma {:induction false} EnqueueFreshBatch(q: seq<Option<Json>>, cs: seq<Option<Json>>)
    requires NoDups(cs)
    requires forall i :: 0 <= i < |cs| ==> cs[i] !in q
    ensures Enqueue(q, cs) == q + cs
    decreases |cs|
  {
    if |cs| > 0 {
      FreshBatchTail(q, cs);
      assert cs[0] !in q;
      EnqueueHead(q, cs);
      EnqueueFreshBatch(q + [cs[0]], cs[1..]);
    }
  }

  /** One step of queueing: the head of the poll is appended unless it is
      already queued. */
  lemma EnqueueHead(q: seq<Option<Json>>, cs: seq<Option<Json>>)
    requires |cs| > 0
    ensures Enqueue(q, cs) == Enqueue(if cs[0] in q then q else q + [cs[0]], cs[1..])
  {
  }

  /** After queueing the head of a fresh batch, the rest is still fresh. */
  lemma FreshBatchTail(q: seq<Option<Json>>, cs: seq<Option<Json>>)
    requires |cs| > 0 && NoDups(cs)
    requires forall i :: 0 <= i < |cs| ==> cs[i] !in q
    ensures q + [cs[0]] + cs[1..] == q + cs
    ensures NoDups(cs[1..])
    ensures forall i :: 0 <= i < |cs| - 1 ==> cs[1..][i] !in q + [cs[0]]
  {
    assert cs[0] !in q;
    assert [cs[0]] + cs[1..] == cs;
    forall i | 0 <= i < |cs| - 1 ensures cs[1..][i] !in q + [cs[0]] {
      assert cs[1..][i] == cs[i + 1] && cs[i + 1] != cs[0];
    }
  }

  lemma StartInv(targetId: string, offer: Json, outcome: StartOutcome, now: int)
    ensures Inv(Start(targetId, offer, outcome, now))
  {
  }

  lemma PollAnswerKeepsInv(v: Viewer, read: Option<Json>, accepted: bool)
    requires Inv(v)
    ensures Inv(PollAnswer(v, read, accepted))
  {
    var t := PollAnswer(v, read, accepted);
    if t != v {
      AddsAfterRemoteFlush(v.log, Field(read.value, "signal"), v.pending);
    }
  }

  lemma PollCandidatesKeepsInv(v: Viewer, read: Option<Json>)
    requires Inv(v)
    ensures Inv(PollCandidates(v, read))
  {
    if v.polling && read.Some? && Truthy(read) && v.remoteSet {
      AddsAfterRemoteExtend(v.log, AddAll(PolledCandidates(OwnEntries(read.value))));
    }
  }

  lemma OnLocalCandidateKeepsInv(v: Viewer, cand: Option<Json>, now: nat)
    requires Inv(v)
    ensures Inv(OnLocalCandidate(v, cand, now))
  {
    if cand.Some? {
      var w := [Write(CandidatePath(v.targetId, "viewerCandidates", now), CandidateRecord(cand.value, now))];
      AddsAfterRemoteNoAdds(v.log, w);
      RemoteSetInAppend(v.log, w);
    }
  }

  lemma StepKeepsInv(v: Viewer, e: Event)
    requires Inv(v)
    ensures Inv(Step(v, e))
  {
    match e
    case AnswerPolled(read, accepted) => PollAnswerKeepsInv(v, read, accepted);
    case CandidatesPolled(read) => PollCandidatesKeepsInv(v, read);
    case LocalCandidate(cand, at) => OnLocalCandidateKeepsInv(v, cand, at);
  }

  lemma {:induction false} RunKeepsInv(v: Viewer, es: seq<Event>)
    requires Inv(v)
    ensures Inv(Run(v, es))
    decreases |es|
  {
    if |es| > 0 {
      StepKeepsInv(v, es[0]);
      RunKeepsInv(Step(v, es[0]), es[1..]);
    }
  }

  /** Whatever the polls return, the viewer never applies a candidate before
      the answer, and its queue never holds two equal candidates. */
  lemma CandidatesNeverBeforeAnswer(targetId: string, offer: Json, outcome: StartOutcome, now: int,
                                    es: seq<Event>)
    ensures var v := Run(Start(targetId, offer, outcome, now), es);
            AddsAfterRemote(v.log) && NoDups(v.pending)
  {
    StartInv(targetId, offer, outcome, now);
    RunKeepsInv(Start(targetId, offer, outcome, now), es);
  }

  /** Before the answer, polled candidates are queued, every one of them,
      and nothing is applied. */
  lemma QueuedBeforeAnswer(v: Viewer, read: Json)
    requires v.polling && !v.remoteSet && Truthy(Some(read))
    ensures var t := PollCandidates(v, Some(read));
            && t.log == v.log
            && forall c :: c in PolledCandidates(OwnEntries(read)) ==> c in t.pending
  {
  }

  /** A candidate already queued, structurally, is not queued again. */
  lemma QueuedOnce(v: Viewer, read: Json)
    requires v.polling && !v.remoteSet && Truthy(Some(read))
    requires forall c :: c in PolledCandidates(OwnEntries(read)) ==> c in v.pending
    ensures PollCandidates(v, Some(read)) == v
  {
    EnqueueKnown(v.pending, PolledCandidates(OwnEntries(read)));
  }

  lemma {:induction false} EnqueueKnown(q: seq<Option<Json>>, cs: seq<Option<Json>>)
    requires forall c :: c in cs ==> c in q
    ensures Enqueue(q, cs) == q
    decreases |cs|
  {
    if |cs| > 0 {
      assert cs[0] in cs;
      assert forall c :: c in cs[1..] ==> c in cs;
      EnqueueKnown(q, cs[1..]);
    }
  }

  /** After the answer, polled candidates are applied at once and the queue
      is left alone; polling the same node again applies them all again. */
  lemma AppliedAfterAnswer(v: Viewer, read: Json)
    requires v.polling && v.remoteSet && Truthy(Some(read))
    ensures var cs := PolledCandidates(OwnEntries(read));
            && PollCandidates(v, Some(read)) == v.(log := v.log + AddAll(cs))
            && PollCandidates(PollCandidates(v, Some(read)), Some(read)).log
               == v.log + AddAll(cs) + AddAll(cs)
  {
  }

  /** Polls that find no answer change nothing, however many there are. */
  function PollAnswerTimes(v: Viewer, read: Option<Json>, n: nat): Viewer
    decreases n
  {
    if n == 0 then v else PollAnswerTimes(PollAnswer(v, read, true), read, n - 1)
  }

  lemma {:induction false} NoAttemptBound(v: Viewer, read: Option<Json>, n: nat)
    requires read.None? || !Truthy(Field(read.value, "signal"))
    ensures PollAnswerTimes(v, read, n) == v
    decreases n
  {
    if n > 0 {
      NoAttemptBound(PollAnswer(v, read, true), read, n - 1);
    }
  }

  /** Applying the answer: the remote description is set first, then each
      queued candidate in queue order, and the queue ends empty. */
  lemma AnswerFlushesQueue(v: Viewer, read: Json)
    requires v.awaitingAnswer && Truthy(Field(read, "signal"))
    ensures var t := PollAnswer(v, Some(read), true);
            && t.remoteSet && t.pending == [] && !t.awaitingAnswer
            && |t.log| == |v.log| + 1 + |v.pending|
            && t.log[|v.log|] == SetRemote(Field(read, "signal"))
            && forall i :: 0 <= i < |v.pending| ==> t.log[|v.log| + 1 + i] == AddCandidate(v.pending[i])
  {
    var t := PollAnswer(v, Some(read), true);
    var pre := v.log + [SetRemote(Field(read, "signal"))];
    assert t.log == pre + AddAll(v.pending);
    assert pre[|v.log|] == SetRemote(Field(read, "signal"));
    forall i | 0 <= i < |v.pending| ensures t.log[|v.log| + 1 + i] == AddCandidate(v.pending[i]) {
      assert t.log[|pre| + i] == AddAll(v.pending)[i];
    }
  }

  /** Once the answer is in, further answer polls do nothing. */
  lemma AnswerAppliedOnce(v: Viewer, r1: Json, r2: Option<Json>, accepted: bool)
    requires v.awaitingAnswer && Truthy(Field(r1, "signal"))
    ensures var t := PollAnswer(v, Some(r1), true);
            PollAnswer(t, r2, accepted) == t
  {
  }
}
