/** Nested config values and writes along a path (models/config.py, `_assign_path`), and why
    folding those writes over flattened rows gives the nested value back. */
module ConfigPaths {
  import opened Text

  /** A JSON value: a dict, or anything else by its encoding. */
  datatype Json = Dict(fields: map<string, Json>) | Leaf(text: string)

  const EMPTY: Json := Dict(map[])

  type Path = seq<string>

  function Get(j: Json, path: Path): Option<Json> {
    if path == [] then Some(j)
    else if j.Dict? && path[0] in j.fields then Get(j.fields[path[0]], path[1..])
    else None
  }

  /** `_assign_path` on values: whatever is not a dict on the way is replaced by a fresh one. */
  function Assign(j: Json, path: Path, value: Json): (r: Json)
    requires j.Dict? && path != []
    ensures r.Dict?
    decreases |path|
  {
    var part := path[0];
    if |path| == 1 then Dict(j.fields[part := value])
    else
      var next := if part in j.fields && j.fields[part].Dict? then j.fields[part] else EMPTY;
      Dict(j.fields[part := Assign(next, path[1..], value)])
  }

  // --- What one write changes -----------------------------------------------------------

  lemma {:induction false} AssignedIsThere(j: Json, path: Path, value: Json, more: Path)
    requires j.Dict? && path != []
    ensures Get(Assign(j, path, value), path + more) == Get(value, more)
    decreases |path|
  {
    assert (path + more)[1..] == path[1..] + more;
    if |path| == 1 {
      assert path[1..] + more == more;
    } else {
      var next := if path[0] in j.fields && j.fields[path[0]].Dict? then j.fields[path[0]] else EMPTY;
      AssignedIsThere(next, path[1..], value, more);
    }
  }

  /** Every path that neither leads to the written one nor goes on from it keeps its value. */
  lemma {:induction false} AssignKeepsOthers(j: Json, path: Path, value: Json, other: Path)
    requires j.Dict? && path != [] && !(other <= path) && !(path <= other)
    ensures Get(Assign(j, path, value), other) == Get(j, other)
    decreases |path|
  {
    if other[0] == path[0] {
      assert path == [path[0]] + path[1..] && other == [other[0]] + other[1..];
      if |path| > 1 {
        var next := if path[0] in j.fields && j.fields[path[0]].Dict? then j.fields[path[0]] else EMPTY;
        AssignKeepsOthers(next, path[1..], value, other[1..]);
      }
    }
  }

  /** Every path that leads to the written one ends in a dict. */
  lemma {:induction false} AssignMakesDicts(j: Json, path: Path, value: Json, n: nat)
    requires j.Dict? && path != [] && n < |path|
    ensures Get(Assign(j, path, value), path[..n]).Some? && Get(Assign(j, path, value), path[..n]).value.Dict?
    decreases |path|
  {
    if n > 0 {
      var next := if path[0] in j.fields && j.fields[path[0]].Dict? then j.fields[path[0]] else EMPTY;
      AssignMakesDicts(next, path[1..], value, n - 1);
      assert path[..n][1..] == path[1..][..n - 1];
    }
  }

  // --- Leaves ---------------------------------------------------------------------------------

  predicate LeafAt(j: Json, path: Path, value: Json) {
    path != [] && value.Leaf? && Get(j, path) == Some(value)
  }

  /** No dict inside is empty; the outermost may be. */
  predicate NoEmptyInner(j: Json) {
    j.Dict? ==> forall k <- j.fields :: j.fields[k] != EMPTY && NoEmptyInner(j.fields[k])
  }

  lemma {:induction false} AssignKeepsNoEmptyInner(j: Json, path: Path, value: Json)
    requires j.Dict? && path != [] && NoEmptyInner(j) && value.Leaf?
    ensures NoEmptyInner(Assign(j, path, value)) && Assign(j, path, value) != EMPTY
    decreases |path|
  {
    var r := Assign(j, path, value);
    assert path[0] in r.fields;
    if |path| > 1 {
      var next := if path[0] in j.fields && j.fields[path[0]].Dict? then j.fields[path[0]] else EMPTY;
      AssignKeepsNoEmptyInner(next, path[1..], value);
    }
  }

  lemma {:induction false} SomeLeaf(j: Json) returns (path: Path, value: Json)
    requires NoEmptyInner(j) && j != EMPTY
    ensures value.Leaf? && Get(j, path) == Some(value)
  {
    if j.Leaf? {
      return [], j;
    }
    assert j.fields != map[];
    var k :| k in j.fields;
    path, value := SomeLeaf(j.fields[k]);
    assert ([k] + path)[1..] == path;
    path := [k] + path;
  }

  ghost predicate SameLeaves(a: Json, b: Json) {
    forall path, value :: LeafAt(a, path, value) <==> LeafAt(b, path, value)
  }

  /** Without empty inner dicts, a value is known by its leaves. */
  lemma {:induction false} LeavesDetermine(a: Json, b: Json)
    requires a.Dict? && b.Dict? && NoEmptyInner(a) && NoEmptyInner(b) && SameLeaves(a, b)
    ensures a == b
  {
    LeafKeys(a, b);
    LeafKeys(b, a);
    assert a.fields.Keys == b.fields.Keys;
    forall k | k in a.fields ensures a.fields[k] == b.fields[k] {
      SameBelow(a, b, k);
      var x, y := a.fields[k], b.fields[k];
      if x.Dict? && y.Dict? {
        LeavesDetermine(x, y);
      } else {
        OneStep(a, k);
        OneStep(b, k);
        if x.Leaf? { assert LeafAt(a, [k], x); }
        if y.Leaf? { assert LeafAt(b, [k], y); }
      }
    }
    assert a.fields == b.fields;
  }

  lemma OneStep(j: Json, k: string)
    requires j.Dict? && k in j.fields
    ensures Get(j, [k]) == Some(j.fields[k])
  {
    assert [k][1..] == [];
  }

  lemma LeafKeys(a: Json, b: Json)
    requires a.Dict? && b.Dict? && NoEmptyInner(a) && SameLeaves(a, b)
    ensures forall k <- a.fields :: k in b.fields
  {
    forall k | k in a.fields ensures k in b.fields {
      var path, value := SomeLeaf(a.fields[k]);
      assert ([k] + path)[1..] == path;
      assert LeafAt(a, [k] + path, value);
    }
  }

  lemma SameBelow(a: Json, b: Json, k: string)
    requires a.Dict? && b.Dict? && k in a.fields && k in b.fields && SameLeaves(a, b)
    ensures SameLeaves(a.fields[k], b.fields[k])
  {
    forall path, value ensures LeafAt(a.fields[k], path, value) <==> LeafAt(b.fields[k], path, value) {
      assert ([k] + path)[1..] == path;
      assert LeafAt(a, [k] + path, value) <==> LeafAt(b, [k] + path, value);
    }
  }

  // --- Folding the writes over rows ---------------------------------------------------------------

  datatype Row = Row(path: Path, value: Json)

  function AssignAll(j: Json, rows: seq<Row>): (r: Json)
    requires j.Dict? && forall row <- rows :: row.path != []
    ensures r.Dict?
    decreases |rows|
  {
    if rows == [] then j
    else
      var before := AssignAll(j, rows[..|rows| - 1]);
      Assign(before, rows[|rows| - 1].path, rows[|rows| - 1].value)
  }

  /** `rows` are leaves of `j`. */
  ghost predicate LeavesOf(rows: seq<Row>, j: Json) {
    forall row <- rows :: LeafAt(j, row.path, row.value)
  }

  /** No two leaves lie on one path. */
  lemma {:induction false} LeavesApart(j: Json, p: Path, q: Path, v: Json, w: Json)
    requires LeafAt(j, p, v) && LeafAt(j, q, w) && p <= q
    ensures p == q && v == w
    decreases |p|
  {
    if |p| > 1 {
      LeavesApart(j.fields[p[0]], p[1..], q[1..], v, w);
      assert p == [p[0]] + p[1..] && q == [q[0]] + q[1..];
    } else {
      assert p == [p[0]] && p[0] == q[0];
      OneStep(j, p[0]);
      assert Get(v, q[1..]) == Some(w);
      assert q == [q[0]] + q[1..];
      assert p == [p[0]] && (|q| == 1 ==> q == [q[0]]);
    }
  }

  /** Writing one more leaf of `j` into a value whose leaves are all leaves of `j` adds just that leaf. */
  lemma AssignAddsLeaf(j: Json, t: Json, row: Row, path: Path, value: Json)
    requires t.Dict? && LeafAt(j, row.path, row.value)
    requires forall p, v :: LeafAt(t, p, v) ==> LeafAt(j, p, v)
    ensures LeafAt(Assign(t, row.path, row.value), path, value)
            <==> LeafAt(t, path, value) || (path == row.path && value == row.value)
  {
    var r := Assign(t, row.path, row.value);
    if row.path <= path {
      assert path == row.path + path[|row.path|..];
      AssignedIsThere(t, row.path, row.value, path[|row.path|..]);
      if LeafAt(t, path, value) { LeavesApart(j, row.path, path, row.value, value); }
      if path == row.path { assert path[|row.path|..] == []; }
    } else if path <= row.path {
      AssignMakesDicts(t, row.path, row.value, |path|);
      assert path == row.path[..|path|];
      if LeafAt(t, path, value) { LeavesApart(j, path, row.path, value, row.value); }
    } else {
      AssignKeepsOthers(t, row.path, row.value, path);
    }
  }

  lemma {:induction false} LeavesAreRows(j: Json, rows: seq<Row>)
    requires LeavesOf(rows, j)
    ensures var t := AssignAll(EMPTY, rows);
            NoEmptyInner(t) && forall path, value :: LeafAt(t, path, value) <==> Row(path, value) in rows
    decreases |rows|
  {
    if rows == [] {
      forall path, value ensures !LeafAt(EMPTY, path, value) {}
    } else {
      var before, last := rows[..|rows| - 1], rows[|rows| - 1];
      LeavesAreRows(j, before);
      var t := AssignAll(EMPTY, before);
      assert rows == before + [last];
      AssignKeepsNoEmptyInner(t, last.path, last.value);
      forall path, value ensures LeafAt(Assign(t, last.path, last.value), path, value) <==> Row(path, value) in rows {
        AssignAddsLeaf(j, t, last, path, value);
        assert Row(path, value) in rows <==> Row(path, value) in before || Row(path, value) == last;
      }
    }
  }

  /** Folding the writes over one row per leaf, in any order and with repeats, rebuilds the nested value exactly
      when no dict inside it is empty. */
  lemma RepairUndoesFlattening(j: Json, rows: seq<Row>)
    requires j.Dict? && LeavesOf(rows, j)
    requires forall path, value :: LeafAt(j, path, value) ==> Row(path, value) in rows
    ensures AssignAll(EMPTY, rows) == j <==> NoEmptyInner(j)
  {
    LeavesAreRows(j, rows);
    if NoEmptyInner(j) { LeavesDetermine(AssignAll(EMPTY, rows), j); }
  }

  /** A dict that holds an empty one has no leaf to write a row for, and comes back without it. */
  lemma EmptyDictIsLost(key: string)
    ensures var j := Dict(map[key := EMPTY]);
            LeavesOf([], j) && (forall path, value :: !LeafAt(j, path, value)) && AssignAll(EMPTY, []) != j
  {
    var j := Dict(map[key := EMPTY]);
    assert key in j.fields && key !in EMPTY.fields && AssignAll(EMPTY, []) == EMPTY;
    forall path, value ensures !LeafAt(j, path, value) {
      if path != [] && path[0] == key { assert Get(j, path) == Get(EMPTY, path[1..]); }
    }
  }

  /** What was there before stays, where no row leads to it or goes on from it. */
  lemma {:induction false} AssignAllKeepsOthers(j: Json, rows: seq<Row>, other: Path)
    requires j.Dict? && forall row <- rows :: row.path != [] && !(other <= row.path) && !(row.path <= other)
    ensures Get(AssignAll(j, rows), other) == Get(j, other)
    decreases |rows|
  {
    if rows != [] {
      var before, last := rows[..|rows| - 1], rows[|rows| - 1];
      AssignAllKeepsOthers(j, before, other);
      AssignKeepsOthers(AssignAll(j, before), last.path, last.value, other);
    }
  }
}
