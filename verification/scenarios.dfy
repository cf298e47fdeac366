/** How the pages and routes fit together through the shared store: which
    registrations the dashboard can find, and the offer/answer exchange
    between a viewer and a sharer. */
module Scenarios {
  import opened Wrappers
  import opened Json
  import opened Store
  import opened Text
  import opened Negotiation
  import SignalApi
  import Dashboard
  import ConnectPage
  import Sharer
  import Viewer

  /** A sharer registers itself without `online`, so whatever is typed, the
      dashboard never matches its record, however many heartbeats follow. */
  lemma SharerNeverMatched(store: Json, peerId: string, code: string, hostname: string,
                           t0: int, times: seq<int>, input: string)
    requires IsKey(peerId)
    ensures !Dashboard.Matches(
              At(Sharer.Heartbeats(Sharer.Register(store, peerId, code, hostname, t0), peerId, times),
                 ["peers", peerId]),
              Dashboard.Clean(input))
  {
    Sharer.NeverOnline(store, peerId, code, hostname, t0, times);
  }

  /** On an empty database holding only a sharer's own registration,
      whatever is typed (its own code included) gives the "not found or
      offline" answer. */
  lemma SharerAloneNotFound(peerId: string, code: string, hostname: string, t0: int, input: string)
    requires IsKey(peerId) && input != ""
    ensures var store := Sharer.Register(Null, peerId, code, hostname, t0);
            Dashboard.ViewScreen(Some(input), Some(At(store, ["peers"])))
            == Dashboard.NotFound(Dashboard.Clean(input))
  {
    var rec := Sharer.PeerRecord(peerId, code, hostname, t0);
    assert At(Sharer.Register(Null, peerId, code, hostname, t0), ["peers"]) == Obj([Member(peerId, rec)]) by {
      SharerStored(peerId, code, hostname, t0);
    }
    OnlyEntryNotFound(peerId, rec, input);
  }

  lemma SharerStored(peerId: string, code: string, hostname: string, t0: int)
    requires IsKey(peerId)
    ensures At(Sharer.Register(Null, peerId, code, hostname, t0), ["peers"])
         == Obj([Member(peerId, Sharer.PeerRecord(peerId, code, hostname, t0))])
  {
    ParseKeyPair("peers", peerId);
    assert "peers/" + peerId == "peers" + "/" + peerId;
    AtPutChild(Null, ["peers"], peerId, Sharer.PeerRecord(peerId, code, hostname, t0));
    assert ["peers"] + [peerId] == ["peers", peerId];
  }

  /** A lone entry that does not match gives "not found". */
  lemma OnlyEntryNotFound(key: string, rec: Json, input: string)
    requires input != "" && rec != Null && !Dashboard.Matches(rec, Dashboard.Clean(input))
    ensures Dashboard.ViewScreen(Some(input), Some(Obj([Member(key, rec)])))
         == Dashboard.NotFound(Dashboard.Clean(input))
  {
    var ms := [Member(key, rec)];
    assert ms[1..] == [];
  }

  /** A typed code whose upper-case form is a guest's code cleans to that
      code. */
  lemma CleanTypedCode(code: string, input: string)
    requires |code| == 7 && ToUpper(input) == code
    requires ConnectPage.IsCodeChar(code[0]) && ConnectPage.IsCodeChar(code[6])
    ensures Dashboard.Clean(input) == code
  {
    assert !IsSpace(code[0]) && !IsSpace(code[6]);
    TrimUnchanged(code);
    ToUpperIdempotent(input);
    assert Dashboard.Clean(code) == code;
    Dashboard.CleanIgnoresCase(input);
  }

  /** Registering a guest through the signal route on an empty database
      leaves exactly one peer entry, keyed by the guest's id, and its record
      matches the guest's code. */
  lemma GuestRegistered(id: string, code: string, t1: int)
    requires IsKey(id) && code != ""
    ensures var body := ConnectPage.RegisterBody(id, code);
            var r := SignalApi.Handle(SignalApi.Request("POST", Some(body)), true, true, t1, Null);
            && r.status == 200
            && At(r.store, ["peers"])
               == Obj([Member(id, SignalApi.RegisterRecord(Field(body, "hostname"), Field(body, "code"), t1))])
            && Dashboard.Matches(SignalApi.RegisterRecord(Field(body, "hostname"), Field(body, "code"), t1), code)
  {
    var body := ConnectPage.RegisterBody(id, code);
    var rec := SignalApi.RegisterRecord(Field(body, "hostname"), Field(body, "code"), t1);
    SignalApi.RegisterPlan(body, id, t1);
    AtPutChild(Null, ["peers"], id, rec);
    assert ["peers"] + [id] == ["peers", id];
  }

  /** A guest registered through the signal route on an empty database is
      found from its code typed in any letter case, and the dashboard opens
      the remote page for its id. */
  lemma GuestFoundByCode(t: string, now: nat, t1: int, input: string)
    requires IsRandomText(t) && |t| >= 8 && ToUpper(input) == ConnectPage.FormatCode(t)
    ensures var id := ConnectPage.PeerId(now);
            var body := ConnectPage.RegisterBody(id, ConnectPage.FormatCode(t));
            var r := SignalApi.Handle(SignalApi.Request("POST", Some(body)), true, true, t1, Null);
            && r.status == 200
            && Dashboard.ViewScreen(Some(input), Some(At(r.store, ["peers"])))
               == Dashboard.Navigate(Dashboard.RemoteRoute(id))
  {
    ConnectPage.PeerIdIsKey(now);
    ConnectPage.CodeShape(t);
    RegisteredCodeFound(ConnectPage.PeerId(now), ConnectPage.FormatCode(t), t1, input);
  }

  lemma RegisteredCodeFound(id: string, code: string, t1: int, input: string)
    requires IsKey(id) && |code| == 7 && ToUpper(input) == code
    requires ConnectPage.IsCodeChar(code[0]) && ConnectPage.IsCodeChar(code[6])
    ensures var body := ConnectPage.RegisterBody(id, code);
            var r := SignalApi.Handle(SignalApi.Request("POST", Some(body)), true, true, t1, Null);
            && r.status == 200
            && Dashboard.ViewScreen(Some(input), Some(At(r.store, ["peers"])))
               == Dashboard.Navigate(Dashboard.RemoteRoute(id))
  {
    var body := ConnectPage.RegisterBody(id, code);
    var r := SignalApi.Handle(SignalApi.Request("POST", Some(body)), true, true, t1, Null);
    var rec := SignalApi.RegisterRecord(Field(body, "hostname"), Field(body, "code"), t1);
    assert r.status == 200 && At(r.store, ["peers"]) == Obj([Member(id, rec)])
        && Dashboard.Matches(rec, code) by {
      GuestRegistered(id, code, t1);
    }
    assert Dashboard.Clean(input) == code && input != "" by {
      CleanTypedCode(code, input);
    }
    OnlyEntryFound(id, rec, input);
  }

  /** A lone matching entry is where the dashboard goes. */
  lemma OnlyEntryFound(key: string, rec: Json, input: string)
    requires input != "" && Dashboard.Matches(rec, Dashboard.Clean(input))
    ensures Dashboard.ViewScreen(Some(input), Some(Obj([Member(key, rec)])))
         == Dashboard.Navigate(Dashboard.RemoteRoute(key))
  {
  }

  /** The heartbeat re-sends the registration body, so after any number of
      beats the store is as if only the last one had been sent. */
  lemma GuestHeartbeatIsUpsert(t: string, now: nat, t1: int, t2: int, store: Json)
    ensures var body := ConnectPage.RegisterBody(ConnectPage.PeerId(now), ConnectPage.FormatCode(t));
            var req := SignalApi.Request("POST", Some(body));
            SignalApi.Handle(req, true, true, t2, SignalApi.Handle(req, true, true, t1, store).store)
            == SignalApi.Handle(req, true, true, t2, store)
  {
    var body := ConnectPage.RegisterBody(ConnectPage.PeerId(now), ConnectPage.FormatCode(t));
    var req := SignalApi.Request("POST", Some(body));
    SignalApi.SecondWriteWins(req, req, t1, t2, store);
  }

  /** A viewer that targets a sharer by access code instead of peer id
      writes its offer to a slot the sharer never reads: an access code is
      never a sharer id. */
  lemma ViewerByCodeMissesSharer(idx: seq<nat>, t: string)
    requires Sharer.ValidIndices(idx) && IsRandomText(t)
    ensures SlotPath(Sharer.GenerateCode(idx), "offer")
         != ["signals", Sharer.SharerPeerId(t), "offer"]
  {
    var code := Sharer.GenerateCode(idx);
    var id := Sharer.SharerPeerId(t);
    assert code[2] in Sharer.Alphabet;
    assert code[2] != '-' by {
      forall i | 0 <= i < |Sharer.Alphabet| ensures Sharer.Alphabet[i] != '-' {
        Sharer.SymbolOf(i);
      }
    }
    assert id[2] == '-';
    assert IsKey(code) by {
      forall i | 0 <= i < 7 ensures code[i] != '/' {
        if i != 3 {
          assert code[i] in Sharer.Alphabet;
          forall j | 0 <= j < |Sharer.Alphabet| ensures Sharer.Alphabet[j] != '/' {
            Sharer.SymbolOf(j);
          }
        }
      }
    }
  }

  /** The viewer's offer lands in `signals/{peerId}/offer`. */
  lemma OfferLands(peerId: string, offer: Json, store: Json, t1: int)
    requires IsKey(peerId)
    ensures var v1 := Viewer.Start(peerId, offer, Viewer.Started, t1);
            At(Commit(store, v1.log), ["signals", peerId, "offer"]) == Viewer.OfferRecord(offer, t1)
  {
    var offerRec := Viewer.OfferRecord(offer, t1);
    var p := ["signals", peerId, "offer"];
    assert SlotPath(peerId, "offer") == p by {
      assert IsKey("offer");
    }
    assert Viewer.Start(peerId, offer, Viewer.Started, t1).log == [SetLocal(offer)] + [Write(p, offerRec)];
    CommitLastWrite(store, [SetLocal(offer)], p, offerRec);
    AtPutSame(store, p, offerRec);
  }

  /** A fresh sharer answers a truthy offer with the four steps in order, and
      the answer lands in `signals/{peerId}/answer`. */
  lemma AnswerLands(peerId: string, data: Json, answer: Json, store: Json, t2: int)
    requires IsKey(peerId) && Truthy(Some(data))
    ensures var s1 := Sharer.OnOffer(Sharer.Initial(peerId), data, answer, Sharer.Completes, t2);
            && s1.hasAnswered
            && s1.log == Sharer.AnswerSteps(peerId, data, answer, t2)
            && At(Commit(store, s1.log), ["signals", peerId, "answer"]) == Sharer.AnswerRecord(answer, t2)
  {
    var s1 := Sharer.OnOffer(Sharer.Initial(peerId), data, answer, Sharer.Completes, t2);
    var answerRec := Sharer.AnswerRecord(answer, t2);
    var steps := Sharer.AnswerSteps(peerId, data, answer, t2);
    assert s1.log == steps;
    assert steps == steps[..3] + [Write(["signals", peerId, "answer"], answerRec)];
    CommitLastWrite(store, steps[..3], ["signals", peerId, "answer"], answerRec);
    AtPutSame(store, ["signals", peerId, "answer"], answerRec);
  }

  /** The whole exchange through the store. The viewer publishes its offer
      to the sharer's id, the sharer answers it, and the viewer's next poll
      applies the answer: each side's remote description is the other
      side's local one. */
  lemma Handshake(peerId: string, offer: Json, answer: Json, store: Json, t1: int, t2: int)
    requires IsKey(peerId) && Truthy(Some(answer))
    ensures var v1 := Viewer.Start(peerId, offer, Viewer.Started, t1);
            var store1 := Commit(store, v1.log);
            var s1 := Sharer.OnOffer(Sharer.Initial(peerId), At(store1, ["signals", peerId, "offer"]),
                                     answer, Sharer.Completes, t2);
            var store2 := Commit(store1, s1.log);
            var v2 := Viewer.PollAnswer(v1, Some(At(store2, ["signals", peerId, "answer"])), true);
            && |v1.log| == 2 && |s1.log| == 4 && |v2.log| == 3
            && v1.log[0] == SetLocal(offer) && s1.log[0] == SetRemote(Some(offer))
            && s1.log[2] == SetLocal(answer) && v2.log[2] == SetRemote(Some(answer))
            && s1.hasAnswered && v2.remoteSet && !v2.awaitingAnswer
  {
    var v1 := Viewer.Start(peerId, offer, Viewer.Started, t1);
    var store1 := Commit(store, v1.log);
    OfferLands(peerId, offer, store, t1);
    var data := At(store1, ["signals", peerId, "offer"]);
    assert Field(data, "signal") == Some(offer);
    AnswerLands(peerId, data, answer, store1, t2);
    var s1 := Sharer.OnOffer(Sharer.Initial(peerId), data, answer, Sharer.Completes, t2);
    var reply := At(Commit(store1, s1.log), ["signals", peerId, "answer"]);
    assert Field(reply, "signal") == Some(answer);
    ViewerTakesAnswer(peerId, offer, t1, reply, answer);
  }

  /** The started viewer, polling a reply that carries the answer, sets it
      as its remote description with nothing queued to flush. */
  lemma ViewerTakesAnswer(peerId: string, offer: Json, t1: int, reply: Json, answer: Json)
    requires Field(reply, "signal") == Some(answer) && Truthy(Some(answer))
    ensures var v2 := Viewer.PollAnswer(Viewer.Start(peerId, offer, Viewer.Started, t1), Some(reply), true);
            && |v2.log| == 3 && v2.log[2] == SetRemote(Some(answer)) && v2.remoteSet && !v2.awaitingAnswer
  {
    var v1 := Viewer.Start(peerId, offer, Viewer.Started, t1);
    assert v1.pending == [] && v1.awaitingAnswer && |v1.log| == 2;
    var v2 := Viewer.PollAnswer(v1, Some(reply), true);
    assert v2.log == v1.log + [SetRemote(Some(answer))] + AddAll([]);
  }
}
