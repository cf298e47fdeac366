/** The realtime database shared by both peers and the API routes, as one JSON
    tree. Every write the core performs is a whole-value PUT at a path
    (`set(ref(db, path), value)` or an HTTP `PUT {url}/{path}.json`); every
    read returns the subtree at a path, `null` when nothing is stored there.

    Paths are written as strings with interpolated ids; the store splits them
    on '/' and ignores empty segments. */
module Store {
  import opened Wrappers
  import opened Json

  type Path = seq<string>

  /** The value stored at `p`; `Null` when nothing is stored there. */
  function At(root: Json, p: Path): Json
    decreases |p|
  {
    if |p| == 0 then root
    else
      match Field(root, p[0])
      case None => Null
      case Some(child) => At(child, p[1..])
  }

  /** Members of a node seen as a parent: a primitive has none. */
  function Children(node: Json): seq<Member> {
    if node.Obj? then node.members else []
  }

  /** Whole-value PUT of `v` at `p`: the subtree at `p` becomes `v`, creating
      the parents that are missing. */
  function Put(root: Json, p: Path, v: Json): Json
    decreases |p|
  {
    if |p| == 0 then v
    else
      var ms := Children(root);
      var child := Lookup(ms, p[0]).GetOr(Null);
      Obj(Assign(ms, p[0], Put(child, p[1..], v)))
  }

  // ---------------------------------------------------------------------------
  // Path strings

  /** `s.split('/')`. */
  function Split(s: string): (parts: seq<string>)
    ensures |parts| >= 1
  {
    if |s| == 0 then [""]
    else if s[0] == '/' then [""] + Split(s[1..])
    else
      var rest := Split(s[1..]);
      [[s[0]] + rest[0]] + rest[1..]
  }

  /** The segments that are not empty, in order. */
  function NonEmpty(parts: seq<string>): (r: seq<string>)
    ensures forall i :: 0 <= i < |r| ==> r[i] != "" && r[i] in parts
  {
    if |parts| == 0 then []
    else if parts[0] == "" then NonEmpty(parts[1..])
    else [parts[0]] + NonEmpty(parts[1..])
  }

  /** The path a string names: its '/'-separated, non-empty segments. */
  function ParsePath(s: string): Path {
    NonEmpty(Split(s))
  }

  /** A key that names exactly one segment. */
  predicate IsKey(k: string) {
    k != "" && '/' !in k
  }

  // ---------------------------------------------------------------------------
  // Lemmas about paths

  lemma {:induction false} SplitJoin(a: string, b: string)
    ensures Split(a + "/" + b) == Split(a) + Split(b)
  {
    if |a| == 0 {
      assert a + "/" + b == "/" + b;
      assert ("/" + b)[1..] == b;
    } else {
      var a' := a[1..];
      assert (a + "/" + b)[1..] == a' + "/" + b;
      SplitJoin(a', b);
    }
  }

  lemma {:induction false} NonEmptyConcat(x: seq<string>, y: seq<string>)
    ensures NonEmpty(x + y) == NonEmpty(x) + NonEmpty(y)
  {
    if |x| > 0 {
      assert (x + y)[1..] == x[1..] + y;
      NonEmptyConcat(x[1..], y);
    } else {
      assert x + y == y;
    }
  }

  /** Interpolating a segment into a path string appends its segments. */
  lemma ParseJoin(a: string, b: string)
    ensures ParsePath(a + "/" + b) == ParsePath(a) + ParsePath(b)
  {
    SplitJoin(a, b);
    NonEmptyConcat(Split(a), Split(b));
  }

  lemma {:induction false} SplitKey(k: string)
    requires '/' !in k
    ensures Split(k) == [k]
  {
    if |k| > 0 {
      assert '/' !in k[1..] by {
        forall i | 0 <= i < |k[1..]| ensures k[1..][i] != '/' {
          assert k[1..][i] == k[i + 1];
        }
      }
      SplitKey(k[1..]);
      assert [k[0]] + k[1..] == k;
    }
  }

  /** A key is a path of one segment. */
  lemma ParseKey(k: string)
    requires IsKey(k)
    ensures ParsePath(k) == [k]
  {
    SplitKey(k);
    assert NonEmpty([k]) == [k] + NonEmpty([]);
  }

  /** An empty interpolated id contributes no segment at all, so the write
      lands on the parent node. */
  lemma ParseEmpty()
    ensures ParsePath("") == []
  {
  }

  /** `prefix/id/suffix` with a key `id` is the three-segment path. */
  lemma ParseKeyPath(prefix: string, id: string, suffix: string)
    requires IsKey(prefix) && IsKey(id) && IsKey(suffix)
    ensures ParsePath(prefix + "/" + id + "/" + suffix) == [prefix, id, suffix]
  {
    ParseJoin(prefix + "/" + id, suffix);
    ParseJoin(prefix, id);
    ParseKey(prefix);
    ParseKey(id);
    ParseKey(suffix);
  }

  /** `prefix/id` with a key `id` is the two-segment path. */
  lemma ParseKeyPair(prefix: string, id: string)
    requires IsKey(prefix) && IsKey(id)
    ensures ParsePath(prefix + "/" + id) == [prefix, id]
  {
    ParseJoin(prefix, id);
    ParseKey(prefix);
    ParseKey(id);
  }

  /** `a/b/c/d` with four keys is the four-segment path. */
  lemma ParseKeyPath4(a: string, b: string, c: string, d: string)
    requires IsKey(a) && IsKey(b) && IsKey(c) && IsKey(d)
    ensures ParsePath(a + "/" + b + "/" + c + "/" + d) == [a, b, c, d]
  {
    ParseJoin(a + "/" + b + "/" + c, d);
    ParseKeyPath(a, b, c);
    ParseKey(d);
  }

  // ---------------------------------------------------------------------------
  // Lemmas about reads and writes

  /** What a PUT wrote is read back unchanged, and the whole subtree below the
      written path is the written value's: nothing of the old value survives. */
  lemma {:induction false} AtPutBelow(root: Json, p: Path, q: Path, v: Json)
    requires p <= q
    ensures At(Put(root, p, v), q) == At(v, q[|p|..])
    decreases |p|
  {
    if |p| > 0 {
      var ms := Children(root);
      var child := Lookup(ms, p[0]).GetOr(Null);
      assert Field(Put(root, p, v), q[0]) == Some(Put(child, p[1..], v));
      AtPutBelow(child, p[1..], q[1..], v);
      assert q[1..][|p[1..]|..] == q[|p|..];
    }
  }

  lemma AtPutSame(root: Json, p: Path, v: Json)
    ensures At(Put(root, p, v), p) == v
  {
    AtPutBelow(root, p, p, v);
  }

  /** A PUT changes no path that is neither above nor below it. */
  lemma {:induction false} AtPutOther(root: Json, p: Path, q: Path, v: Json)
    requires !(p <= q) && !(q <= p)
    ensures At(Put(root, p, v), q) == At(root, q)
    decreases |p|
  {
    var ms := Children(root);
    var child := Lookup(ms, p[0]).GetOr(Null);
    var ms' := Assign(ms, p[0], Put(child, p[1..], v));
    if q[0] != p[0] {
      assert Lookup(ms', q[0]) == Lookup(ms, q[0]);
      assert Field(Put(root, p, v), q[0]) == Field(root, q[0]);
    } else {
      PrefixTail(p, q);
      PrefixTail(q, p);
      AtPutOther(child, p[1..], q[1..], v);
      match Field(root, q[0])
      case None =>
        assert child == Null;
        assert At(child, q[1..]) == Null;
      case Some(c) =>
        assert child == c;
    }
  }

  lemma PrefixTail(p: Path, q: Path)
    requires |p| > 0 && |q| > 0 && p[0] == q[0]
    ensures (p <= q) <==> (p[1..] <= q[1..])
  {
    assert p == [p[0]] + p[1..] && q == [q[0]] + q[1..];
  }

  lemma {:induction false} AssignTwice(ms: seq<Member>, k: string, a: Json, b: Json)
    ensures Assign(Assign(ms, k, a), k, b) == Assign(ms, k, b)
  {
    var i := IndexOf(ms, k);
    var once := Assign(ms, k, a);
    if i < |ms| {
      IndexOfAgrees(once, k, i);
    } else {
      IndexOfAgrees(once, k, |ms|);
    }
  }

  /** A second PUT to the same path replaces the first one completely: the
      store is as if only the second write had happened. */
  lemma {:induction false} PutPut(root: Json, p: Path, v1: Json, v2: Json)
    ensures Put(Put(root, p, v1), p, v2) == Put(root, p, v2)
    decreases |p|
  {
    if |p| > 0 {
      var ms := Children(root);
      var child := Lookup(ms, p[0]).GetOr(Null);
      var once := Put(root, p, v1);
      assert Children(once) == Assign(ms, p[0], Put(child, p[1..], v1));
      assert Lookup(Children(once), p[0]).GetOr(Null) == Put(child, p[1..], v1);
      PutPut(child, p[1..], v1, v2);
      AssignTwice(ms, p[0], Put(child, p[1..], v1), Put(child, p[1..], v2));
    }
  }

  /** A PUT one level below `p` rewrites exactly one member of the node at
      `p`: the node keeps its other members, in place. */
  lemma {:induction false} AtPutChild(root: Json, p: Path, k: string, v: Json)
    ensures At(Put(root, p + [k], v), p) == Obj(Assign(Children(At(root, p)), k, v))
    decreases |p|
  {
    var ms := Children(root);
    var q := p + [k];
    var child := Lookup(ms, q[0]).GetOr(Null);
    if |p| == 0 {
      assert q[1..] == [];
    } else {
      assert q[1..] == p[1..] + [k];
      assert Field(Put(root, q, v), p[0]) == Some(Put(child, p[1..] + [k], v));
      AtPutChild(child, p[1..], k, v);
      assert At(child, p[1..]) == At(root, p);
    }
  }
}
