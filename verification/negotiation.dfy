/** What the two pages do to their peer connection and to the store, as an
    ordered log of effects. Session descriptions and ICE candidates are
    opaque JSON values; `None` stands for `undefined`.

    Ordering properties of the pages ("the remote description is set before
    any candidate is applied") become properties of the order of this log. */
module Negotiation {
  import opened Wrappers
  import opened Json
  import opened Store

  datatype Effect =
    | SetLocal(desc: Json)                // pc.setLocalDescription
    | SetRemote(remote: Option<Json>)     // pc.setRemoteDescription
    | CreateAnswer                        // pc.createAnswer
    | AddCandidate(cand: Option<Json>)    // pc.addIceCandidate
    | Write(path: Path, value: Json)      // set(ref(db, path), value)

  /** The store after the log's writes, applied in order. */
  function Commit(store: Json, log: seq<Effect>): Json
    decreases |log|
  {
    if |log| == 0 then store
    else
      var next := if log[0].Write? then Put(store, log[0].path, log[0].value) else store;
      Commit(next, log[1..])
  }

  /** One `AddCandidate` per candidate, in order. */
  function AddAll(cs: seq<Option<Json>>): (r: seq<Effect>)
    ensures |r| == |cs|
    ensures forall i :: 0 <= i < |cs| ==> r[i] == AddCandidate(cs[i])
  {
    seq(|cs|, i requires 0 <= i < |cs| => AddCandidate(cs[i]))
  }

  /** Some remote description has been set. */
  predicate RemoteSetIn(log: seq<Effect>) {
    exists j :: 0 <= j < |log| && log[j].SetRemote?
  }

  predicate NoAdds(log: seq<Effect>) {
    forall i :: 0 <= i < |log| ==> !log[i].AddCandidate?
  }

  /** No ICE candidate is applied before a remote description has been set. */
  predicate AddsAfterRemote(log: seq<Effect>) {
    forall i :: 0 <= i < |log| && log[i].AddCandidate? ==> RemoteSetIn(log[..i])
  }

  /** The record both pages write for one of their own ICE candidates. */
  function CandidateRecord(cand: Json, now: int): (r: Json)
    ensures Field(r, "candidate") == Some(cand) && Field(r, "timestamp") == Some(Num(now))
  {
    var ms := [Member("candidate", cand), Member("timestamp", Num(now))];
    IndexOfAgrees(ms, "candidate", 0);
    IndexOfAgrees(ms, "timestamp", 1);
    Obj(ms)
  }

  /** `signals/{owner}/{box}/{now}`: one slot per millisecond. */
  function CandidatePath(owner: string, box: string, now: nat): (p: Path)
    ensures IsKey(owner) && IsKey(box) ==> p == ["signals", owner, box, NatToString(now)]
  {
    var p := ParsePath("signals/" + owner + "/" + box + "/" + NatToString(now));
    if IsKey(owner) && IsKey(box) then
      assert "signals/" + owner + "/" + box + "/" + NatToString(now)
          == "signals" + "/" + owner + "/" + box + "/" + NatToString(now);
      assert IsKey(NatToString(now)) by {
        assert forall i :: 0 <= i < |NatToString(now)| ==> NatToString(now)[i] != '/';
      }
      ParseKeyPath4("signals", owner, box, NatToString(now));
      p
    else p
  }

  /** `signals/{owner}/{slot}`: the offer and answer mailboxes. */
  function SlotPath(owner: string, slot: string): (p: Path)
    ensures IsKey(owner) && IsKey(slot) ==> p == ["signals", owner, slot]
  {
    if IsKey(owner) && IsKey(slot) then
      ParseKeyPath("signals", owner, slot);
      assert "signals/" + owner + "/" + slot == "signals" + "/" + owner + "/" + slot;
      ParsePath("signals/" + owner + "/" + slot)
    else ParsePath("signals/" + owner + "/" + slot)
  }

  // ---------------------------------------------------------------------------
  // Lemmas

  /** Committing a log in two pieces is committing it at once. */
  lemma {:induction false} CommitAppend(store: Json, a: seq<Effect>, b: seq<Effect>)
    ensures Commit(store, a + b) == Commit(Commit(store, a), b)
    decreases |a|
  {
    if |a| == 0 {
      assert a + b == b;
    } else {
      assert (a + b)[0] == a[0];
      assert (a + b)[1..] == a[1..] + b;
      var next := if a[0].Write? then Put(store, a[0].path, a[0].value) else store;
      CommitAppend(next, a[1..], b);
    }
  }

  /** Once a remote description is set, any effects may follow. */
  lemma AddsAfterRemoteExtend(a: seq<Effect>, b: seq<Effect>)
    requires AddsAfterRemote(a) && RemoteSetIn(a)
    ensures AddsAfterRemote(a + b) && RemoteSetIn(a + b)
  {
    var j :| 0 <= j < |a| && a[j].SetRemote?;
    forall i | 0 <= i < |a + b| && (a + b)[i].AddCandidate?
      ensures RemoteSetIn((a + b)[..i])
    {
      if i < |a| {
        assert (a + b)[..i] == a[..i];
      } else {
        assert (a + b)[..i][j] == a[j];
      }
    }
    assert (a + b)[j] == a[j];
  }

  /** Effects that apply no candidate can always follow. */
  lemma AddsAfterRemoteNoAdds(a: seq<Effect>, b: seq<Effect>)
    requires AddsAfterRemote(a) && NoAdds(b)
    ensures AddsAfterRemote(a + b)
    ensures RemoteSetIn(a) ==> RemoteSetIn(a + b)
  {
    forall i | 0 <= i < |a + b| && (a + b)[i].AddCandidate?
      ensures RemoteSetIn((a + b)[..i])
    {
      assert forall k :: |a| <= k < |a + b| ==> (a + b)[k] == b[k - |a|];
      assert (a + b)[..i] == a[..i];
    }
    if RemoteSetIn(a) {
      var j :| 0 <= j < |a| && a[j].SetRemote?;
      assert (a + b)[j] == a[j];
    }
  }

  lemma RemoteSetInAppend(a: seq<Effect>, b: seq<Effect>)
    ensures RemoteSetIn(a + b) <==> RemoteSetIn(a) || RemoteSetIn(b)
  {
    if RemoteSetIn(a + b) {
      var j :| 0 <= j < |a + b| && (a + b)[j].SetRemote?;
      if j >= |a| {
        assert b[j - |a|] == (a + b)[j];
      } else {
        assert a[j] == (a + b)[j];
      }
    }
    if RemoteSetIn(a) {
      var j :| 0 <= j < |a| && a[j].SetRemote?;
      assert (a + b)[j] == a[j];
    }
    if RemoteSetIn(b) {
      var j :| 0 <= j < |b| && b[j].SetRemote?;
      assert (a + b)[|a| + j] == b[j];
    }
  }

  /** Setting a remote description and then applying candidates keeps the
      order. */
  lemma AddsAfterRemoteFlush(a: seq<Effect>, desc: Option<Json>, cs: seq<Option<Json>>)
    requires AddsAfterRemote(a)
    ensures AddsAfterRemote(a + [SetRemote(desc)] + AddAll(cs))
    ensures RemoteSetIn(a + [SetRemote(desc)] + AddAll(cs))
  {
    AddsAfterRemoteNoAdds(a, [SetRemote(desc)]);
    assert (a + [SetRemote(desc)])[|a|].SetRemote?;
    AddsAfterRemoteExtend(a + [SetRemote(desc)], AddAll(cs));
  }

  /** Two candidates gathered in the same millisecond go to the same slot,
      so the later one overwrites the earlier. */
  lemma SameMillisecondOverwrites(store: Json, owner: string, box: string, now: nat,
                                  c1: Json, c2: Json)
    ensures var p := CandidatePath(owner, box, now);
            Commit(store, [Write(p, CandidateRecord(c1, now)), Write(p, CandidateRecord(c2, now))])
            == Put(store, p, CandidateRecord(c2, now))
  {
    var p := CandidatePath(owner, box, now);
    var r1, r2 := CandidateRecord(c1, now), CandidateRecord(c2, now);
    CommitTwoWrites(store, p, r1, r2);
  }

  lemma CommitTwoWrites(store: Json, p: Path, v1: Json, v2: Json)
    ensures Commit(store, [Write(p, v1), Write(p, v2)]) == Put(store, p, v2)
  {
    var log := [Write(p, v1), Write(p, v2)];
    assert log[1..] == [Write(p, v2)];
    assert log[1..][1..] == [];
    assert Commit(store, log) == Commit(Put(store, p, v1), log[1..]);
    assert Commit(Put(store, p, v1), log[1..]) == Commit(Put(Put(store, p, v1), p, v2), []);
    PutPut(store, p, v1, v2);
  }

  /** Effects other than writes leave the store alone. */
  lemma {:induction false} CommitNoWrites(store: Json, log: seq<Effect>)
    requires forall i :: 0 <= i < |log| ==> !log[i].Write?
    ensures Commit(store, log) == store
    decreases |log|
  {
    if |log| > 0 {
      CommitNoWrites(store, log[1..]);
    }
  }

  /** A log whose only write is its last effect commits that one PUT. */
  lemma CommitLastWrite(store: Json, pre: seq<Effect>, p: Path, v: Json)
    requires forall i :: 0 <= i < |pre| ==> !pre[i].Write?
    ensures Commit(store, pre + [Write(p, v)]) == Put(store, p, v)
  {
    CommitAppend(store, pre, [Write(p, v)]);
    CommitNoWrites(store, pre);
    assert [Write(p, v)][1..] == [];
  }
}
