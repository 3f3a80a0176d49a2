/** The structured value a serialized graph row parses into, and the
    "walk down by a sequence of keys" operation the lookups use. */
module Json {
  import opened Wrappers

  /** A parsed JSON value. Objects are maps: a parser keeps one value per key. */
  datatype Json =
    | Null
    | Bool(b: bool)
    | Num(n: real)
    | Str(s: string)
    | Arr(items: seq<Json>)
    | Obj(fields: map<string, Json>)

  /** A sequence of object keys, applied from the root outwards. */
  type KeyPath = seq<string>

  /** Python's `v[k1][k2]...`: indexing a dict by a missing key, or indexing
      anything that is not a dict by a string key, raises; that is `None` here. */
  function Navigate(j: Json, path: KeyPath): (r: Option<Json>)
    decreases |path|
  {
    if |path| == 0 then Some(j)
    else
      match j
      case Obj(m) => if path[0] in m then Navigate(m[path[0]], path[1..]) else None
      case _ => None
  }

  /** The object tree that holds `v` at the end of `path` and nothing else. */
  function Nest(path: KeyPath, v: Json): (j: Json)
    decreases |path|
  {
    if |path| == 0 then v else Obj(map[path[0] := Nest(path[1..], v)])
  }

  /** Walking a path in two legs is walking the joined path. */
  lemma {:induction false} NavigateAppend(j: Json, p: KeyPath, q: KeyPath)
    ensures Navigate(j, p + q) ==
      (match Navigate(j, p)
       case None => None
       case Some(mid) => Navigate(mid, q))
    decreases |p|
  {
    if |p| == 0 {
      assert p + q == q;
    } else {
      assert (p + q)[0] == p[0];
      assert (p + q)[1..] == p[1..] + q;
      match j
      case Obj(m) =>
        if p[0] in m {
          NavigateAppend(m[p[0]], p[1..], q);
        }
      case _ =>
    }
  }

  /** Walking the path a value was nested under finds that value again. */
  lemma {:induction false} NavigateNest(path: KeyPath, v: Json)
    ensures Navigate(Nest(path, v), path) == Some(v)
    decreases |path|
  {
    if |path| > 0 {
      NavigateNest(path[1..], v);
    }
  }

  /** Only objects can be walked into: a non-empty path fails on anything else. */
  lemma NavigateNeedsObject(j: Json, path: KeyPath)
    requires 0 < |path| && !j.Obj?
    ensures Navigate(j, path) == None
  {
  }
}
