/** The `/api/peers` route (web/pages/api/peers.js): a GET that reads the whole
    `peers` node and returns the entries seen in the last 30 seconds, each
    with its key added as `id`.

    The store read is a parameter: `None` when the fetch fails or its
    response is not OK, otherwise the parsed body (`Null` for an empty
    node). */
module PeersApi {
  import opened Wrappers
  import opened Json

  /** Milliseconds after which a record no longer counts as online. */
  const StaleAfter: int := 30000

  datatype Response = Peers(peers: seq<Json>) | Failed(status: int)

  /** `now - data.lastSeen < 30000`, with JavaScript's NaN semantics. */
  predicate Fresh(data: Json, now: int) {
    DifferenceBelow(now, ToNumber(Field(data, "lastSeen")), StaleAfter)
  }

  /** `{ id, ...data }`: the key comes first as `id`, then the record's own
      properties are spread over it, so a record's own `id` wins. */
  function WithId(key: string, data: Json): Json {
    Obj(AssignAll([Member("id", Str(key))], if data.Obj? then data.members else []))
  }

  /** Reading `lastSeen` of a null entry throws before anything is returned. */
  predicate HasNullEntry(ms: seq<Member>) {
    exists i :: 0 <= i < |ms| && ms[i].value == Null
  }

  /** `.filter(([_, data]) => now - data.lastSeen < 30000)`, in order. */
  function FreshEntries(ms: seq<Member>, now: int): (r: seq<Member>)
    ensures |r| <= |ms|
    ensures forall j :: 0 <= j < |r| ==> Fresh(r[j].value, now)
  {
    if |ms| == 0 then []
    else
      var rest := FreshEntries(ms[1..], now);
      if Fresh(ms[0].value, now) then [ms[0]] + rest else rest
  }

  /** `.map(([id, data]) => ({ id, ...data }))`. */
  function Listed(ms: seq<Member>): (r: seq<Json>)
    ensures |r| == |ms|
    ensures forall j :: 0 <= j < |ms| ==> r[j] == WithId(ms[j].key, ms[j].value)
  {
    seq(|ms|, j requires 0 <= j < |ms| => WithId(ms[j].key, ms[j].value))
  }

  /** The route. */
  function Handle(verb: string, urlConfigured: bool, read: Option<Json>, now: int): (r: Response)
    ensures r == Failed(405) <==> verb != "GET"
    ensures verb == "GET" && (!urlConfigured || read.None?) ==> r == Failed(500)
    ensures r.Peers? ==> read.Some? && r.peers == Listed(FreshEntries(OwnEntries(read.value), now))
    ensures read == Some(Null) && verb == "GET" && urlConfigured ==> r == Peers([])
  {
    if verb != "GET" then Failed(405)
    else if !urlConfigured then Failed(500)
    else if read.None? then Failed(500)
    else
      var ms := OwnEntries(read.value);
      if HasNullEntry(ms) then Failed(500) else Peers(Listed(FreshEntries(ms, now)))
  }

  // ---------------------------------------------------------------------------
  // Reference characterisation of the filter

  /** Positions (offset by `base`) of the entries that pass the filter. */
  function Kept(ms: seq<Member>, now: int, base: nat): (r: seq<nat>)
    ensures |r| <= |ms|
    ensures forall j :: 0 <= j < |r| ==> base <= r[j] < base + |ms|
  {
    if |ms| == 0 then []
    else
      var rest := Kept(ms[1..], now, base + 1);
      if Fresh(ms[0].value, now) then [base] + rest else rest
  }

  /** `Kept` lists, in increasing order, exactly the fresh positions. */
  lemma {:induction false} KeptExactly(ms: seq<Member>, now: int, base: nat)
    ensures forall j, j' :: 0 <= j < j' < |Kept(ms, now, base)| ==>
              Kept(ms, now, base)[j] < Kept(ms, now, base)[j']
    ensures forall i :: 0 <= i < |ms| ==>
              (base + i in Kept(ms, now, base) <==> Fresh(ms[i].value, now))
  {
    if |ms| > 0 {
      KeptExactly(ms[1..], now, base + 1);
      var rest := Kept(ms[1..], now, base + 1);
      forall i | 0 < i < |ms| ensures base + i in rest <==> Fresh(ms[i].value, now) {
        assert ms[1..][i - 1] == ms[i];
      }
    }
  }

  /** The kept entries are the entries at the kept positions. */
  lemma {:induction false} FreshAtKept(ms: seq<Member>, now: int, base: nat)
    ensures |FreshEntries(ms, now)| == |Kept(ms, now, base)|
    ensures forall j :: 0 <= j < |FreshEntries(ms, now)| ==>
              FreshEntries(ms, now)[j] == ms[Kept(ms, now, base)[j] - base]
  {
    if |ms| > 0 {
      FreshAtKept(ms[1..], now, base + 1);
      if Fresh(ms[0].value, now) {
        FreshAtKeptCons(ms, now, base);
      } else {
        FreshAtKeptSkip(ms, now, base);
      }
    }
  }

  /** The inductive step when the first entry is kept. */
  lemma FreshAtKeptCons(ms: seq<Member>, now: int, base: nat)
    requires |ms| > 0 && Fresh(ms[0].value, now)
    requires |FreshEntries(ms[1..], now)| == |Kept(ms[1..], now, base + 1)|
    requires forall j :: 0 <= j < |FreshEntries(ms[1..], now)| ==>
               FreshEntries(ms[1..], now)[j] == ms[1..][Kept(ms[1..], now, base + 1)[j] - (base + 1)]
    ensures |FreshEntries(ms, now)| == |Kept(ms, now, base)|
    ensures forall j :: 0 <= j < |FreshEntries(ms, now)| ==>
              FreshEntries(ms, now)[j] == ms[Kept(ms, now, base)[j] - base]
  {
    var out, idx := FreshEntries(ms[1..], now), Kept(ms[1..], now, base + 1);
    assert FreshEntries(ms, now) == [ms[0]] + out;
    assert Kept(ms, now, base) == [base] + idx;
    forall j | 0 <= j < |out| + 1 ensures ([ms[0]] + out)[j] == ms[([base] + idx)[j] - base] {
      if j > 0 {
        assert ([ms[0]] + out)[j] == out[j - 1] == ms[1..][idx[j - 1] - (base + 1)];
      }
    }
  }

  /** The inductive step when the first entry is dropped. */
  lemma FreshAtKeptSkip(ms: seq<Member>, now: int, base: nat)
    requires |ms| > 0 && !Fresh(ms[0].value, now)
    requires |FreshEntries(ms[1..], now)| == |Kept(ms[1..], now, base + 1)|
    requires forall j :: 0 <= j < |FreshEntries(ms[1..], now)| ==>
               FreshEntries(ms[1..], now)[j] == ms[1..][Kept(ms[1..], now, base + 1)[j] - (base + 1)]
    ensures |FreshEntries(ms, now)| == |Kept(ms, now, base)|
    ensures forall j :: 0 <= j < |FreshEntries(ms, now)| ==>
              FreshEntries(ms, now)[j] == ms[Kept(ms, now, base)[j] - base]
  {
    assert FreshEntries(ms, now) == FreshEntries(ms[1..], now);
    assert Kept(ms, now, base) == Kept(ms[1..], now, base + 1);
  }

  /** The route's answer is an order-preserving selection of the entries:
      exactly the fresh ones, in store order, each with its key as `id`. */
  lemma PeersAreFreshEntriesInOrder(body: Json, now: int)
    requires !HasNullEntry(OwnEntries(body))
    ensures var r := Handle("GET", true, Some(body), now);
            var ms := OwnEntries(body);
            var idx := Kept(ms, now, 0);
            && r.Peers? && |r.peers| == |idx|
            && (forall j, j' :: 0 <= j < j' < |idx| ==> idx[j] < idx[j'])
            && (forall j :: 0 <= j < |idx| ==>
                  idx[j] < |ms| && r.peers[j] == WithId(ms[idx[j]].key, ms[idx[j]].value))
            && (forall i :: 0 <= i < |ms| ==> (i in idx <==> Fresh(ms[i].value, now)))
  {
    var ms := OwnEntries(body);
    KeptExactly(ms, now, 0);
    FreshAtKept(ms, now, 0);
  }

  /** One null entry anywhere makes the whole read fail. */
  lemma NullEntryFails(body: Json, now: int)
    requires HasNullEntry(OwnEntries(body))
    ensures Handle("GET", true, Some(body), now) == Failed(500)
  {
  }

  /** The freshness bound is strict: exactly 30000 ms old is already stale,
      29999 ms old is still fresh. */
  lemma StrictBoundary(data: Json, now: int)
    requires data.Obj?
    ensures Field(data, "lastSeen") == Some(Num(now - StaleAfter)) ==> !Fresh(data, now)
    ensures Field(data, "lastSeen") == Some(Num(now - StaleAfter + 1)) ==> Fresh(data, now)
  {
  }

  /** A record without `lastSeen` is never listed: the subtraction is NaN. */
  lemma MissingLastSeenExcluded(data: Json, now: int)
    requires Field(data, "lastSeen").None?
    ensures !Fresh(data, now)
  {
  }

  /** A listed peer carries its key as `id` unless the record has an `id` of
      its own, and every other property of the record unchanged. */
  lemma WithIdFields(key: string, data: Json, k: string)
    requires data.Obj? && DistinctKeys(data.members)
    ensures Field(WithId(key, data), "id")
         == (if Field(data, "id").Some? then Field(data, "id") else Some(Str(key)))
    ensures k != "id" ==> Field(WithId(key, data), k) == Field(data, k)
  {
    AssignAllLookup([Member("id", Str(key))], data.members, "id");
    AssignAllLookup([Member("id", Str(key))], data.members, k);
  }
}
