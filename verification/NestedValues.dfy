/** The get and set commands on nested configuration maps (cmd/getset.go). */
module NestedValues {
  import opened Collections

  datatype Value = Scalar(text: string) | Tree(entries: Entries)
  type Entries = map<string, Value>
  type Path = seq<string>

  datatype Lookup = Found(value: Value) | NotFound | NotAMap(part: string)

  // ----- set -----

  /** The map below `key`; a missing entry or a scalar is replaced by an empty map. */
  function Below(m: Entries, key: string): Entries {
    if key in m && m[key].Tree? then m[key].entries else map[]
  }

  function Put(m: Entries, path: Path, v: Value): Entries
    requires path != []
    decreases |path|
  {
    if |path| == 1 then m[path[0] := v]
    else m[path[0] := Tree(Put(Below(m, path[0]), path[1..], v))]
  }

  /** setNestedValue; the empty path is an error. */
  method SetNestedValue(m: Entries, path: Path, v: Value) returns (r: Option<Entries>)
    ensures r == if path == [] then None else Some(Put(m, path, v))
    decreases |path|
  {
    if |path| == 0 {
      return None;
    }
    if |path| == 1 {
      return Some(m[path[0] := v]);
    }
    var next: Entries := map[];
    if path[0] in m && m[path[0]].Tree? {
      next := m[path[0]].entries;
    }
    var below := SetNestedValue(next, path[1..], v);
    return Some(m[path[0] := Tree(below.value)]);
  }

  // ----- get -----

  function Walk(v: Value, path: Path): Lookup
    decreases |path|
  {
    if path == [] then Found(v)
    else if v.Scalar? then NotAMap(path[0])
    else if path[0] !in v.entries then NotFound
    else Walk(v.entries[path[0]], path[1..])
  }

  method Get(m: Entries, path: Path) returns (r: Lookup)
    ensures r == Walk(Tree(m), path)
  {
    var current := Tree(m);
    for i := 0 to |path|
      invariant Walk(Tree(m), path) == Walk(current, path[i..])
    {
      if current.Scalar? {
        return NotAMap(path[i]);
      }
      if path[i] !in current.entries {
        return NotFound;
      }
      current := current.entries[path[i]];
      assert path[i..][1..] == path[i + 1..];
    }
    return Found(current);
  }

  /** Where a walk ends: `k` parts were found, and the rest of the path is refused there. */
  predicate StopsAt(v: Value, path: Path, k: nat) {
    k < |path| && Walk(v, path[..k]).Found? &&
    (Walk(v, path[..k]).value.Scalar? || path[k] !in Walk(v, path[..k]).value.entries)
  }

  /** The two errors: a part that a map lacks, and a part asked of what is no map. */
  lemma {:induction false} WalkErrors(v: Value, path: Path, k: nat)
    requires StopsAt(v, path, k)
    ensures Walk(v, path) == if Walk(v, path[..k]).value.Scalar? then NotAMap(path[k]) else NotFound
    decreases |path|
  {
    if k == 0 {
      assert path[..0] == [];
    } else {
      assert path[..k][0] == path[0] && path[..k][1..] == path[1..][..k - 1];
      WalkErrors(v.entries[path[0]], path[1..], k - 1);
    }
  }

  lemma {:induction false} WalkEnds(v: Value, path: Path) returns (k: nat)
    requires !Walk(v, path).Found?
    ensures StopsAt(v, path, k)
    decreases |path|
  {
    k := 0;
    assert path[..0] == [];
    if v.Tree? && path[0] in v.entries {
      var j := WalkEnds(v.entries[path[0]], path[1..]);
      k := j + 1;
      assert path[..k][0] == path[0] && path[..k][1..] == path[1..][..j];
    }
  }

  // ----- Laws -----

  predicate Incomparable(p: Path, q: Path) {
    !(p <= q) && !(q <= p)
  }

  lemma IncomparableTail(p: Path, q: Path)
    requires Incomparable(p, q) && p != [] && q != [] && p[0] == q[0]
    ensures Incomparable(p[1..], q[1..])
  {
  }

  /** Reading below the written path reads inside the written value; reading the path
      itself gives the value. */
  lemma {:induction false} GetAfterSet(m: Entries, p: Path, v: Value, s: Path)
    requires p != []
    ensures Walk(Tree(Put(m, p, v)), p + s) == Walk(v, s)
    decreases |p|
  {
    assert (p + s)[1..] == p[1..] + s;
    if |p| == 1 {
      assert p[1..] + s == s;
    } else {
      GetAfterSet(Below(m, p[0]), p[1..], v, s);
    }
  }

  /** A path that neither leads to nor from the written one keeps its value, and stays
      absent if it was, even where a scalar on the way gave room to a map. */
  lemma {:induction false} SetElsewhere(m: Entries, p: Path, v: Value, q: Path)
    requires p != [] && Incomparable(p, q)
    ensures var before, after := Walk(Tree(m), q), Walk(Tree(Put(m, p, v)), q);
            (before.Found? ==> after == before) && (!before.Found? ==> !after.Found?)
    decreases |p|
  {
    if q[0] == p[0] {
      IncomparableTail(p, q);
      SetElsewhere(Below(m, p[0]), p[1..], v, q[1..]);
    }
  }

  /** The second set wins. */
  lemma {:induction false} SetSet(m: Entries, p: Path, v: Value, w: Value)
    requires p != []
    ensures Put(Put(m, p, v), p, w) == Put(m, p, w)
    decreases |p|
  {
    if |p| > 1 {
      SetSet(Below(m, p[0]), p[1..], v, w);
      assert Below(Put(m, p, v), p[0]) == Put(Below(m, p[0]), p[1..], v);
    }
  }

  /** Writing what is there changes nothing. */
  lemma {:induction false} SetGet(m: Entries, p: Path)
    requires p != [] && Walk(Tree(m), p).Found?
    ensures Put(m, p, Walk(Tree(m), p).value) == m
    decreases |p|
  {
    if |p| > 1 {
      SetGet(m[p[0]].entries, p[1..]);
    } else {
      assert p[1..] == [];
    }
  }

  lemma SetApart(m: Entries, p: Path, v: Value, q: Path, w: Value)
    requires p != [] && q != [] && p[0] != q[0]
    ensures Put(Put(m, p, v), q, w) == Put(Put(m, q, w), p, v)
  {
  }

  /** Two sets below one entry are two sets of the map below it. */
  lemma SetTogether(m: Entries, p: Path, v: Value, q: Path, w: Value)
    requires |p| > 1 && |q| > 1 && p[0] == q[0]
    ensures Put(Put(m, p, v), q, w) == m[p[0] := Tree(Put(Put(Below(m, p[0]), p[1..], v), q[1..], w))]
  {
  }

  /** Independent sets commute. */
  lemma {:induction false} SetCommutes(m: Entries, p: Path, v: Value, q: Path, w: Value)
    requires p != [] && q != [] && Incomparable(p, q)
    ensures Put(Put(m, p, v), q, w) == Put(Put(m, q, w), p, v)
    decreases |p|
  {
    if p[0] != q[0] {
      SetApart(m, p, v, q, w);
    } else {
      IncomparableTail(p, q);
      SetTogether(m, p, v, q, w);
      SetTogether(m, q, w, p, v);
      SetCommutes(Below(m, p[0]), p[1..], v, q[1..], w);
    }
  }
}
