/** The `/api/signal` route (web/pages/api/signal.js): a POST whose JSON body
    names a message `type` is turned into one whole-value PUT on the store,
    or into an error status.

    The store URL being configured, the store's answer to the PUT and the
    clock are parameters. */
module SignalApi {
  import opened Wrappers
  import opened Json
  import opened Store

  /** An incoming request; `body` is `None` when it is not valid JSON. */
  datatype Request = Request(verb: string, body: Option<Json>)

  /** The status returned and the store after the request. */
  datatype Response = Response(status: int, store: Json)

  /** What the route decides before it talks to the store. */
  datatype Plan = Reject(status: int) | Write(path: Path, value: Json)

  /** The peer record a `register` message stores: online, seen now, with a
      default host name and a null code when those are missing or falsy. */
  function RegisterRecord(hostname: Option<Json>, code: Option<Json>, now: int): (r: Json)
    ensures Field(r, "online") == Some(Bool(true))
    ensures Field(r, "lastSeen") == Some(Num(now))
    ensures Truthy(hostname) ==> Field(r, "hostname") == hostname
    ensures !Truthy(hostname) ==> Field(r, "hostname") == Some(Str("Unknown PC"))
    ensures Truthy(code) ==> Field(r, "code") == code
    ensures !Truthy(code) ==> Field(r, "code") == Some(Null)
  {
    var ms := [ Member("online", Bool(true))
              , Member("lastSeen", Num(now))
              , Member("hostname", Or(hostname, Str("Unknown PC")))
              , Member("code", Or(code, Null)) ];
    IndexOfAgrees(ms, "online", 0);
    IndexOfAgrees(ms, "lastSeen", 1);
    IndexOfAgrees(ms, "hostname", 2);
    IndexOfAgrees(ms, "code", 3);
    Obj(ms)
  }

  /** The offer record: the sender's id is stored as `from`. */
  function OfferRecord(signal: Option<Json>, peerId: Option<Json>, now: int): Json {
    Obj(ObjectLiteral([("signal", signal), ("from", peerId), ("timestamp", Some(Num(now)))]))
  }

  function AnswerRecord(signal: Option<Json>, now: int): Json {
    Obj(ObjectLiteral([("signal", signal), ("timestamp", Some(Num(now)))]))
  }

  function RegisterPath(peerId: Option<Json>): Path {
    ParsePath("peers/" + JsString(peerId))
  }

  function OfferPath(targetId: Option<Json>): Path {
    ParsePath("signals/" + JsString(targetId) + "/offer")
  }

  /** The answer goes to the sender's own mailbox, not to `targetId`'s. */
  function AnswerPath(peerId: Option<Json>): Path {
    ParsePath("signals/" + JsString(peerId) + "/answer")
  }

  function Decide(req: Request, urlConfigured: bool, now: int): Plan {
    if req.verb != "POST" then Reject(405)
    else if req.body.None? then Reject(500)          // req.json() rejects
    else if req.body.value == Null then Reject(500)  // destructuring null throws
    else if !urlConfigured then Reject(500)
    else
      var body := req.body.value;
      var kind := Field(body, "type");
      if kind == Some(Str("register")) then
        Write(RegisterPath(Field(body, "peerId")),
              RegisterRecord(Field(body, "hostname"), Field(body, "code"), now))
      else if kind == Some(Str("offer")) then
        Write(OfferPath(Field(body, "targetId")),
              OfferRecord(Field(body, "signal"), Field(body, "peerId"), now))
      else if kind == Some(Str("answer")) then
        Write(AnswerPath(Field(body, "peerId")),
              AnswerRecord(Field(body, "signal"), now))
      else Reject(400)
  }

  /** The route: at most one PUT, and only a successful one changes the
      store. */
  function Handle(req: Request, urlConfigured: bool, writeOk: bool, now: int, store: Json): (r: Response)
    ensures r.status in {200, 400, 405, 500}
    ensures r.status == 405 <==> req.verb != "POST"
    ensures r.status != 200 ==> r.store == store
    ensures r.status == 200 ==> writeOk && urlConfigured && req.verb == "POST"
    ensures r.status == 200 ==> exists p, v :: r.store == Put(store, p, v)
  {
    match Decide(req, urlConfigured, now)
    case Reject(status) => Response(status, store)
    case Write(p, v) =>
      if writeOk then Response(200, Put(store, p, v)) else Response(500, store)
  }

  // ---------------------------------------------------------------------------
  // Lemmas

  /** Without a configured store URL every POST fails before any write. */
  lemma MissingUrlFails(req: Request, writeOk: bool, now: int, store: Json)
    requires req.verb == "POST"
    ensures Handle(req, false, writeOk, now, store) == Response(500, store)
  {
  }

  /** A failed PUT is reported as 500 and leaves the store as it was. */
  lemma WriteFailureFails(req: Request, urlConfigured: bool, now: int, store: Json)
    requires req.verb == "POST"
    ensures Handle(req, urlConfigured, false, now, store).status in {400, 500}
    ensures Handle(req, urlConfigured, false, now, store).store == store
  {
  }

  /** Any `type` other than the three known ones is a 400 and writes nothing. */
  lemma UnknownTypeRejected(body: Json, now: int, writeOk: bool, store: Json)
    requires body.Obj?
    requires Field(body, "type") !in {Some(Str("register")), Some(Str("offer")), Some(Str("answer"))}
    ensures Handle(Request("POST", Some(body)), true, writeOk, now, store) == Response(400, store)
  {
  }

  /** `register` replaces `peers/{peerId}` with the online record and changes
      nothing outside that subtree. */
  lemma RegisterReplacesPeer(body: Json, id: string, now: int, store: Json, q: Path)
    requires body.Obj? && Field(body, "type") == Some(Str("register"))
    requires Field(body, "peerId") == Some(Str(id)) && IsKey(id)
    requires !(["peers", id] <= q) && !(q <= ["peers", id])
    ensures var r := Handle(Request("POST", Some(body)), true, true, now, store);
            && r.status == 200
            && At(r.store, ["peers", id])
               == RegisterRecord(Field(body, "hostname"), Field(body, "code"), now)
            && At(r.store, q) == At(store, q)
  {
    var v := RegisterRecord(Field(body, "hostname"), Field(body, "code"), now);
    RegisterPlan(body, id, now);
    AtPutSame(store, ["peers", id], v);
    AtPutOther(store, ["peers", id], q, v);
  }

  /** A `register` message from a peer whose id is one path segment is
      planned as a PUT of the online record at `peers/{id}`. */
  lemma RegisterPlan(body: Json, id: string, now: int)
    requires body.Obj? && Field(body, "type") == Some(Str("register"))
    requires Field(body, "peerId") == Some(Str(id)) && IsKey(id)
    ensures Decide(Request("POST", Some(body)), true, now)
         == Write(["peers", id], RegisterRecord(Field(body, "hostname"), Field(body, "code"), now))
  {
    RegisterPathOf(id);
  }

  lemma RegisterPathOf(id: string)
    requires IsKey(id)
    ensures RegisterPath(Some(Str(id))) == ["peers", id]
  {
    ParseKeyPair("peers", id);
    assert "peers/" + id == "peers" + "/" + id;
  }

  lemma OfferPathOf(id: string)
    requires IsKey(id)
    ensures OfferPath(Some(Str(id))) == ["signals", id, "offer"]
  {
    ParseKeyPath("signals", id, "offer");
    assert "signals/" + id + "/offer" == "signals" + "/" + id + "/" + "offer";
  }

  lemma AnswerPathOf(id: string)
    requires IsKey(id)
    ensures AnswerPath(Some(Str(id))) == ["signals", id, "answer"]
  {
    ParseKeyPath("signals", id, "answer");
    assert "signals/" + id + "/answer" == "signals" + "/" + id + "/" + "answer";
  }

  /** `offer` replaces `signals/{targetId}/offer`, recording the sender. */
  lemma OfferReplacesTargetSlot(body: Json, target: string, now: int, store: Json, q: Path)
    requires body.Obj? && Field(body, "type") == Some(Str("offer"))
    requires Field(body, "targetId") == Some(Str(target)) && IsKey(target)
    requires !(["signals", target, "offer"] <= q) && !(q <= ["signals", target, "offer"])
    ensures var r := Handle(Request("POST", Some(body)), true, true, now, store);
            && r.status == 200
            && At(r.store, ["signals", target, "offer"])
               == OfferRecord(Field(body, "signal"), Field(body, "peerId"), now)
            && At(r.store, q) == At(store, q)
  {
    var v := OfferRecord(Field(body, "signal"), Field(body, "peerId"), now);
    OfferPathOf(target);
    assert Decide(Request("POST", Some(body)), true, now) == Write(["signals", target, "offer"], v);
    AtPutSame(store, ["signals", target, "offer"], v);
    AtPutOther(store, ["signals", target, "offer"], q, v);
  }

  /** `answer` is filed under the SENDER's id: the `targetId` of the body
      plays no part in where it lands. */
  lemma AnswerKeyedBySender(body: Json, id: string, now: int, store: Json, q: Path)
    requires body.Obj? && Field(body, "type") == Some(Str("answer"))
    requires Field(body, "peerId") == Some(Str(id)) && IsKey(id)
    requires !(["signals", id, "answer"] <= q) && !(q <= ["signals", id, "answer"])
    ensures var r := Handle(Request("POST", Some(body)), true, true, now, store);
            && r.status == 200
            && At(r.store, ["signals", id, "answer"])
               == AnswerRecord(Field(body, "signal"), now)
            && At(r.store, q) == At(store, q)
  {
    var v := AnswerRecord(Field(body, "signal"), now);
    AnswerPathOf(id);
    assert Decide(Request("POST", Some(body)), true, now) == Write(["signals", id, "answer"], v);
    AtPutSame(store, ["signals", id, "answer"], v);
    AtPutOther(store, ["signals", id, "answer"], q, v);
  }

  /** Two successful requests that address the same slot leave the store as
      the second alone would: each write is a whole-value replacement. */
  lemma SecondWriteWins(req1: Request, req2: Request, t1: int, t2: int, store: Json)
    requires Decide(req1, true, t1).Write? && Decide(req2, true, t2).Write?
    requires Decide(req1, true, t1).path == Decide(req2, true, t2).path
    ensures Handle(req2, true, true, t2, Handle(req1, true, true, t1, store).store)
         == Handle(req2, true, true, t2, store)
  {
    var p := Decide(req1, true, t1).path;
    PutPut(store, p, Decide(req1, true, t1).value, Decide(req2, true, t2).value);
  }

  /** An empty `peerId` names no segment, so a `register` with it replaces
      the whole `peers` node, every other peer's record included. */
  lemma EmptyPeerIdReplacesAllPeers(body: Json, now: int, store: Json)
    requires body.Obj? && Field(body, "type") == Some(Str("register"))
    requires Field(body, "peerId") == Some(Str(""))
    ensures var r := Handle(Request("POST", Some(body)), true, true, now, store);
            At(r.store, ["peers"]) == RegisterRecord(Field(body, "hostname"), Field(body, "code"), now)
  {
    var v := RegisterRecord(Field(body, "hostname"), Field(body, "code"), now);
    EmptyRegisterPath();
    assert Decide(Request("POST", Some(body)), true, now) == Write(["peers"], v);
    AtPutSame(store, ["peers"], v);
  }

  lemma EmptyRegisterPath()
    ensures RegisterPath(Some(Str(""))) == ["peers"]
  {
    assert "peers/" + "" == "peers" + "/" + "";
    ParseJoin("peers", "");
    ParseKey("peers");
    ParseEmpty();
  }
}
