/** JSON values as they travel through the store and the HTTP bodies, together
    with the few JavaScript coercions the pages apply to them: property access,
    truthiness, `ToNumber` (with NaN) and template-literal stringification.

    Objects keep their members in enumeration order, because the pages scan
    `Object.entries` / `Object.values` front to back. Numbers are integers:
    every number the core handles is a millisecond timestamp. */
module Json {
  import opened Wrappers

  datatype Json =
    | Null
    | Bool(b: bool)
    | Num(n: int)
    | Str(s: string)
    | Obj(members: seq<Member>)

  datatype Member = Member(key: string, value: Json)

  /** Position of the first member named `k`, or `|ms|` when there is none. */
  function IndexOf(ms: seq<Member>, k: string): (i: nat)
    ensures i <= |ms|
    ensures i < |ms| ==> ms[i].key == k
    ensures forall j :: 0 <= j < i ==> ms[j].key != k
  {
    if |ms| == 0 then 0
    else if ms[0].key == k then 0
    else 1 + IndexOf(ms[1..], k)
  }

  /** Property read on a member list; `None` is `undefined`. */
  function Lookup(ms: seq<Member>, k: string): Option<Json> {
    var i := IndexOf(ms, k);
    if i < |ms| then Some(ms[i].value) else None
  }

  /** `v.k` for a value that is not null (reading a property of null throws,
      which callers model separately). Primitives have none of the
      properties the core reads. */
  function Field(v: Json, k: string): Option<Json> {
    if v.Obj? then Lookup(v.members, k) else None
  }

  /** JavaScript truthiness; `undefined` and `null` are falsy. */
  predicate Truthy(v: Option<Json>) {
    match v
    case None => false
    case Some(Null) => false
    case Some(Bool(b)) => b
    case Some(Num(n)) => n != 0
    case Some(Str(s)) => s != ""
    case Some(Obj(_)) => true
  }

  /** `a || b`: the left operand when it is truthy, the right one otherwise. */
  function Or(a: Option<Json>, b: Json): (r: Json)
    ensures Truthy(a) ==> Some(r) == a
    ensures !Truthy(a) ==> r == b
  {
    if Truthy(a) then a.value else b
  }

  /** Property assignment `o[k] = v` on an ordinary object: an existing
      property keeps its position and takes the new value, a new one is
      appended. */
  function Assign(ms: seq<Member>, k: string, v: Json): (r: seq<Member>)
    ensures Lookup(r, k) == Some(v)
    ensures forall k' :: k' != k ==> Lookup(r, k') == Lookup(ms, k')
    ensures IndexOf(ms, k) < |ms| ==> |r| == |ms|
    ensures IndexOf(ms, k) == |ms| ==> r == ms + [Member(k, v)]
  {
    var i := IndexOf(ms, k);
    if i < |ms| then
      var r := ms[i := Member(k, v)];
      assert IndexOf(r, k) == i by { IndexOfAgrees(r, k, i); }
      forall k' | k' != k ensures Lookup(r, k') == Lookup(ms, k') {
        IndexOfOther(ms, i, k, v, k');
      }
      r
    else
      var r := ms + [Member(k, v)];
      assert IndexOf(r, k) == i by { IndexOfAgrees(r, k, i); }
      forall k' | k' != k ensures Lookup(r, k') == Lookup(ms, k') {
        IndexOfAppend(ms, Member(k, v), k');
      }
      r
  }

  /** `{...first, ...rest}`-style sequence of assignments, in order. */
  function AssignAll(ms: seq<Member>, more: seq<Member>): (r: seq<Member>)
    decreases |more|
  {
    if |more| == 0 then ms
    else AssignAll(Assign(ms, more[0].key, more[0].value), more[1..])
  }

  /** `Object.entries(v || {})` as far as the core is concerned: the members
      of an object, nothing for `null` and the other primitives. (A string
      has its characters as entries, but no entry of a string has any of the
      properties the core looks for.) */
  function OwnEntries(v: Json): seq<Member> {
    if v.Obj? then v.members else []
  }

  /** The keys of a member list are pairwise different, as the own
      properties of a parsed object are. */
  predicate DistinctKeys(ms: seq<Member>) {
    forall i, j :: 0 <= i < j < |ms| ==> ms[i].key != ms[j].key
  }

  /** The JSON text of an object literal `{k1: e1, ...}` names its members in
      source order and leaves out those whose value is `undefined`. */
  function ObjectLiteral(fields: seq<(string, Option<Json>)>): (r: seq<Member>)
    ensures |r| <= |fields|
    ensures forall i :: 0 <= i < |r| ==> (r[i].key, Some(r[i].value)) in fields
  {
    if |fields| == 0 then []
    else
      var rest := ObjectLiteral(fields[1..]);
      match fields[0].1
      case None => rest
      case Some(v) => [Member(fields[0].0, v)] + rest
  }

  /** Result of JavaScript's `ToNumber` on the values the core compares. */
  datatype Number = NaN | Finite(n: int)

  /** `ToNumber`: `undefined` and objects are NaN, `null` is 0, booleans are
      0 or 1. Strings are taken as NaN (see the README). */
  function ToNumber(v: Option<Json>): Number {
    match v
    case None => NaN
    case Some(Null) => Finite(0)
    case Some(Bool(b)) => Finite(if b then 1 else 0)
    case Some(Num(n)) => Finite(n)
    case Some(Str(_)) => NaN
    case Some(Obj(_)) => NaN
  }

  /** `a - b < c` in IEEE comparison: false whenever `b` is NaN. */
  predicate DifferenceBelow(a: int, b: Number, c: int) {
    b.Finite? && a - b.n < c
  }

  function Digit(d: nat): (c: char)
    requires d < 10
    ensures '0' <= c <= '9'
  {
    ('0' as int + d) as char
  }

  /** Decimal text of a natural number, as `String(n)` prints it. */
  function NatToString(n: nat): (s: string)
    ensures |s| >= 1
    ensures forall i :: 0 <= i < |s| ==> '0' <= s[i] <= '9'
    ensures n < 10 <==> |s| == 1
  {
    if n < 10 then [Digit(n)] else NatToString(n / 10) + [Digit(n % 10)]
  }

  /** Template-literal interpolation `${v}`. */
  function JsString(v: Option<Json>): string {
    match v
    case None => "undefined"
    case Some(Null) => "null"
    case Some(Bool(b)) => if b then "true" else "false"
    case Some(Num(n)) => if n < 0 then "-" + NatToString(-n) else NatToString(n)
    case Some(Str(s)) => s
    case Some(Obj(_)) => "[object Object]"
  }

  // ---------------------------------------------------------------------------
  // Lemmas

  /** Different timestamps give different decimal keys. */
  lemma {:induction false} NatToStringInjective(n: nat, m: nat)
    requires NatToString(n) == NatToString(m)
    ensures n == m
  {
    var s := NatToString(n);
    if n < 10 {
      assert m < 10;
      assert Digit(n) == s[0] == Digit(m);
    } else {
      assert m >= 10;
      var a, b := NatToString(n / 10), NatToString(m / 10);
      assert s == a + [Digit(n % 10)] && s == b + [Digit(m % 10)];
      assert |a| == |s| - 1 && |b| == |s| - 1;
      assert a == s[..|s| - 1] && b == s[..|s| - 1];
      NatToStringInjective(n / 10, m / 10);
      assert Digit(n % 10) == s[|s| - 1] == Digit(m % 10);
    }
  }

  /** Spreading an object with distinct keys: every key it has takes its
      value, every other key keeps the value it had. */
  lemma {:induction false} AssignAllLookup(ms: seq<Member>, more: seq<Member>, k: string)
    requires DistinctKeys(more)
    ensures Lookup(AssignAll(ms, more), k)
         == (if Lookup(more, k).Some? then Lookup(more, k) else Lookup(ms, k))
    decreases |more|
  {
    if |more| > 0 {
      var m0, rest := more[0], more[1..];
      var ms' := Assign(ms, m0.key, m0.value);
      DistinctTail(more);
      AssignAllLookup(ms', rest, k);
      assert AssignAll(ms, more) == AssignAll(ms', rest);
      if k == m0.key {
        HeadKeyNotInTail(more);
        assert Lookup(ms', k) == Some(m0.value);
      } else {
        LookupTail(more, k);
        assert Lookup(ms', k) == Lookup(ms, k);
      }
    }
  }

  lemma DistinctTail(ms: seq<Member>)
    requires |ms| > 0 && DistinctKeys(ms)
    ensures DistinctKeys(ms[1..])
  {
    forall i, j | 0 <= i < j < |ms[1..]| ensures ms[1..][i].key != ms[1..][j].key {
      assert ms[1..][i] == ms[i + 1] && ms[1..][j] == ms[j + 1];
    }
  }

  lemma HeadKeyNotInTail(ms: seq<Member>)
    requires |ms| > 0 && DistinctKeys(ms)
    ensures Lookup(ms[1..], ms[0].key) == None
    ensures Lookup(ms, ms[0].key) == Some(ms[0].value)
  {
    assert forall j :: 0 <= j < |ms[1..]| ==> ms[1..][j] == ms[j + 1];
  }

  lemma LookupTail(ms: seq<Member>, k: string)
    requires |ms| > 0 && ms[0].key != k
    ensures Lookup(ms, k) == Lookup(ms[1..], k)
  {
  }

  /** `IndexOf` is characterised by its contract. */
  lemma IndexOfAgrees(r: seq<Member>, k: string, i: nat)
    requires i <= |r|
    requires i < |r| ==> r[i].key == k
    requires i == |r| ==> forall j :: 0 <= j < |r| ==> r[j].key != k
    requires forall j :: 0 <= j < i ==> r[j].key != k
    ensures IndexOf(r, k) == i
  {
  }

  lemma IndexOfOther(ms: seq<Member>, i: nat, k: string, v: Json, k': string)
    requires i < |ms| && ms[i].key == k && k' != k
    ensures Lookup(ms[i := Member(k, v)], k') == Lookup(ms, k')
  {
    var r := ms[i := Member(k, v)];
    var x := IndexOf(ms, k');
    assert x != i;
    IndexOfAgrees(r, k', x);
  }

  lemma IndexOfAppend(ms: seq<Member>, m: Member, k': string)
    requires m.key != k'
    ensures Lookup(ms + [m], k') == Lookup(ms, k')
  {
    var r := ms + [m];
    var x := IndexOf(ms, k');
    if x < |ms| {
      IndexOfAgrees(r, k', x);
    } else {
      IndexOfAgrees(r, k', |r|);
    }
  }
}
