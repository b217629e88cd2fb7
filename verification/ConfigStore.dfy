/** The nested dicts of models/config.py as objects changed in place: `_assign_path` walks down from
    the dict it is given and writes into the dict it ends at, making fresh ones on the way. */
module ConfigStore {
  import opened Text
  import opened ConfigPaths

  datatype Entry = Sub(node: DictNode) | Val(text: string)

  class DictNode {
    var entries: map<string, Entry>

    constructor ()
      ensures entries == map[]
    {
      entries := map[];
    }
  }

  /** Where a dict hangs: in which dict, under which key. */
  datatype Place = Place(parent: DictNode, key: string)

  /** What some dicts hold and where they hang, as a value. */
  datatype Store = Store(dicts: map<DictNode, map<string, Entry>>, places: map<DictNode, Place>)

  ghost predicate Mirrors(s: Store)
    reads s.dicts.Keys
  {
    forall d <- s.dicts :: d.entries == s.dicts[d]
  }

  /** The dict `d` and everything under it spell out `j`. */
  ghost predicate Holds(s: Store, d: DictNode, j: Json)
    decreases j, 0
  {
    && d in s.dicts && j.Dict? && s.dicts[d].Keys == j.fields.Keys
    && forall k <- j.fields :: EntryHolds(s, s.dicts[d][k], j.fields[k])
  }

  ghost predicate EntryHolds(s: Store, e: Entry, j: Json)
    decreases j, 1
  {
    match e
    case Val(text) => j == Leaf(text)
    case Sub(node) => j.Dict? && Holds(s, node, j)
  }

  /** Each dict hangs in one place at most, the one `places` names. */
  ghost predicate Forest(s: Store) {
    forall d, k :: d in s.dicts && k in s.dicts[d] && s.dicts[d][k].Sub? ==> PlacedAt(s, s.dicts[d][k].node, d, k)
  }

  /** And `root` in none. */
  ghost predicate Tree(s: Store, root: DictNode) {
    root in s.dicts && root !in s.places && Forest(s)
  }

  ghost predicate PlacedAt(s: Store, n: DictNode, d: DictNode, k: string) {
    n in s.dicts && n in s.places && s.places[n] == Place(d, k)
  }

  /** The dict a path leads to, if it leads through dicts only. */
  ghost function At(s: Store, root: DictNode, path: Path): Option<DictNode>
    decreases |path|
  {
    if path == [] then Some(root)
    else
      var (front, last) := (path[..|path| - 1], path[|path| - 1]);
      var d := At(s, root, front);
      if d.Some? && d.value in s.dicts && last in s.dicts[d.value] && s.dicts[d.value][last].Sub?
      then Some(s.dicts[d.value][last].node) else None
  }

  lemma AtOneMore(s: Store, root: DictNode, path: Path, k: string)
    ensures At(s, root, path + [k])
            == var d := At(s, root, path);
               if d.Some? && d.value in s.dicts && k in s.dicts[d.value] && s.dicts[d.value][k].Sub?
               then Some(s.dicts[d.value][k].node) else None
  {
    assert (path + [k])[..|path|] == path;
  }

  lemma {:induction false} AtPrefix(s: Store, root: DictNode, path: Path, n: nat)
    requires At(s, root, path).Some? && n <= |path|
    ensures At(s, root, path[..n]).Some?
    decreases |path|
  {
    if n < |path| {
      AtPrefix(s, root, path[..|path| - 1], n);
      assert path[..|path| - 1][..n] == path[..n];
    } else {
      assert path[..n] == path;
    }
  }

  /** One dict, one path. */
  lemma {:induction false} OnePath(s: Store, root: DictNode, p: Path, q: Path)
    requires Tree(s, root) && At(s, root, p).Some? && At(s, root, p) == At(s, root, q)
    ensures p == q
    decreases |p|
  {
    var d := At(s, root, p).value;
    if p != [] {
      assert PlacedAt(s, d, At(s, root, p[..|p| - 1]).value, p[|p| - 1]);
    }
    if q != [] {
      assert PlacedAt(s, d, At(s, root, q[..|q| - 1]).value, q[|q| - 1]);
    }
    if p != [] && q != [] {
      var a, b := p[..|p| - 1], q[..|q| - 1];
      OnePath(s, root, a, b);
      assert p == a + [p[|p| - 1]] && q == b + [q[|q| - 1]];
    }
  }

  /** What a path leads to is what `Get` finds there. */
  lemma {:induction false} HoldsAt(s: Store, root: DictNode, j: Json, path: Path)
    requires Holds(s, root, j) && At(s, root, path).Some?
    ensures Get(j, path).Some? && Holds(s, At(s, root, path).value, Get(j, path).value)
    decreases |path|
  {
    if path != [] {
      var front, last := path[..|path| - 1], path[|path| - 1];
      HoldsAt(s, root, j, front);
      assert path == front + [last];
      GetOneMore(j, front, last);
      var d, below := At(s, root, front).value, Get(j, front).value;
      assert EntryHolds(s, s.dicts[d][last], below.fields[last]);
    }
  }

  lemma {:induction false} GetOneMore(j: Json, path: Path, k: string)
    ensures Get(j, path + [k])
            == if Get(j, path).Some? && Get(j, path).value.Dict? && k in Get(j, path).value.fields
               then Some(Get(j, path).value.fields[k]) else None
    decreases |path|
  {
    if path == [] {
      assert path + [k] == [k] && [k][1..] == [];
    } else {
      assert (path + [k])[1..] == path[1..] + [k];
      if j.Dict? && path[0] in j.fields { GetOneMore(j.fields[path[0]], path[1..], k); }
    }
  }

  // --- One entry written ------------------------------------------------------------------

  /** A dict that hangs nowhere and is not the root: the value of a row not merged yet. */
  predicate Loose(s: Store, root: DictNode, n: DictNode) {
    n in s.dicts && n !in s.places && n != root
  }

  /** `s'` is `s` with one entry of `cur` set to a value, to an empty dict that is not in `s`, or to a loose one. */
  ghost predicate Wrote(s: Store, s': Store, root: DictNode, cur: DictNode, k: string, e: Entry) {
    && cur in s.dicts && cur in s'.dicts && s'.dicts[cur] == s.dicts[cur][k := e]
    && (forall d <- s.dicts :: d in s'.dicts && (d != cur ==> s'.dicts[d] == s.dicts[d]))
    && match e
       case Val(_) => s'.dicts.Keys == s.dicts.Keys && s'.places == s.places
       case Sub(n) =>
         && s'.dicts.Keys == s.dicts.Keys + {n} && s'.places == s.places[n := Place(cur, k)]
         && (Loose(s, root, n) || (n !in s.dicts && s'.dicts[n] == map[]))
  }

  /** What is under `top`, which hangs nowhere, is not under another dict that hangs nowhere. */
  lemma {:induction false} OneTop(s: Store, root: DictNode, top: DictNode, p: Path, q: Path)
    requires Tree(s, root) && top !in s.places
    requires At(s, top, p).Some? && At(s, top, p) == At(s, root, q)
    ensures top == root
    decreases |p|
  {
    var d := At(s, root, q).value;
    if p != [] { assert PlacedAt(s, d, At(s, top, p[..|p| - 1]).value, p[|p| - 1]); }
    if q != [] { assert PlacedAt(s, d, At(s, root, q[..|q| - 1]).value, q[|q| - 1]); }
    if p != [] && q != [] { OneTop(s, root, top, p[..|p| - 1], q[..|q| - 1]); }
  }

  /** A write below the root leaves what is under a loose dict as it was. */
  lemma {:induction false} FrameLoose(s: Store, s': Store, root: DictNode, at: Path, cur: DictNode, k: string, e: Entry,
                                      top: DictNode, p: Path, d: DictNode, j: Json)
    requires Tree(s, root) && Wrote(s, s', root, cur, k, e) && At(s, root, at) == Some(cur)
    requires Loose(s, root, top) && At(s, top, p) == Some(d) && Holds(s, d, j)
    ensures Holds(s', d, j)
    decreases j, 0
  {
    if d == cur { OneTop(s, root, top, p, at); }
    forall key | key in j.fields ensures EntryHolds(s', s'.dicts[d][key], j.fields[key]) {
      assert EntryHolds(s, s.dicts[d][key], j.fields[key]);
      if s.dicts[d][key].Sub? {
        AtOneMore(s, top, p, key);
        FrameLoose(s, s', root, at, cur, k, e, top, p + [key], s.dicts[d][key].node, j.fields[key]);
      }
    }
  }

  /** Loose dicts, but for `e` itself, are loose still and hold what they held. */
  ghost predicate KeepsLoose(s: Store, s': Store, root: DictNode, e: Entry) {
    forall n, j | n in s.dicts && Loose(s, root, n) && Sub(n) != e && Holds(s, n, j) ::
      Loose(s', root, n) && Holds(s', n, j)
  }

  /** The same, but for several dicts. */
  ghost predicate KeepsBut(s: Store, s': Store, root: DictNode, moved: set<DictNode>) {
    forall n, j | n in s.dicts && Loose(s, root, n) && n !in moved && Holds(s, n, j) ::
      Loose(s', root, n) && Holds(s', n, j)
  }

  lemma WroteKeepsLoose(s: Store, s': Store, root: DictNode, at: Path, cur: DictNode, k: string, e: Entry)
    requires Tree(s, root) && Wrote(s, s', root, cur, k, e) && At(s, root, at) == Some(cur)
    ensures KeepsLoose(s, s', root, e)
  {
    forall n, j | n in s.dicts && Loose(s, root, n) && Sub(n) != e && Holds(s, n, j)
      ensures Loose(s', root, n) && Holds(s', n, j)
    {
      FrameLoose(s, s', root, at, cur, k, e, n, [], n, j);
    }
  }

  lemma WroteKeepsTree(s: Store, s': Store, root: DictNode, cur: DictNode, k: string, e: Entry)
    requires Tree(s, root) && Wrote(s, s', root, cur, k, e) && e != Sub(root)
    ensures Tree(s', root)
  {
    forall d, key | d in s'.dicts && key in s'.dicts[d] && s'.dicts[d][key].Sub?
      ensures PlacedAt(s', s'.dicts[d][key].node, d, key)
    {
      if d in s.dicts && !(d == cur && key == k) {
        assert PlacedAt(s, s.dicts[d][key].node, d, key);
      }
    }
  }

  /** What does not lie on the way to `cur` is untouched. */
  lemma {:induction false} FrameBelow(s: Store, s': Store, root: DictNode, at: Path, cur: DictNode, k: string, e: Entry,
                                      pd: Path, d: DictNode, j: Json)
    requires Tree(s, root) && Wrote(s, s', root, cur, k, e) && At(s, root, at) == Some(cur)
    requires At(s, root, pd) == Some(d) && !(pd <= at) && Holds(s, d, j)
    ensures Holds(s', d, j)
    decreases j, 0
  {
    if d == cur { OnePath(s, root, pd, at); }
    forall key | key in j.fields ensures EntryHolds(s', s'.dicts[d][key], j.fields[key]) {
      FrameEntry(s, s', root, at, cur, k, e, pd, d, j, key);
    }
  }

  lemma {:induction false} FrameEntry(s: Store, s': Store, root: DictNode, at: Path, cur: DictNode, k: string, e: Entry,
                                      pd: Path, d: DictNode, j: Json, key: string)
    requires Tree(s, root) && Wrote(s, s', root, cur, k, e) && At(s, root, at) == Some(cur)
    requires At(s, root, pd) == Some(d) && Holds(s, d, j) && key in j.fields && !(pd + [key] <= at)
    ensures EntryHolds(s', s.dicts[d][key], j.fields[key])
    decreases j.fields[key], 1
  {
    assert EntryHolds(s, s.dicts[d][key], j.fields[key]);
    if s.dicts[d][key].Sub? {
      AtOneMore(s, root, pd, key);
      FrameBelow(s, s', root, at, cur, k, e, pd + [key], s.dicts[d][key].node, j.fields[key]);
    }
  }

  /** A write into the dict at `at` is an assignment along `at` and the written key. */
  lemma {:induction false} WroteIsAssign(s: Store, s': Store, root: DictNode, at: Path, cur: DictNode, k: string,
                                         e: Entry, value: Json, n: nat, d: DictNode, j: Json)
    requires Tree(s, root) && Wrote(s, s', root, cur, k, e) && At(s, root, at) == Some(cur) && EntryHolds(s', e, value)
    requires n <= |at| && At(s, root, at[..n]) == Some(d) && Holds(s, d, j)
    ensures Holds(s', d, Assign(j, at[n..] + [k], value))
    decreases |at| - n
  {
    if n == |at| {
      assert at[..n] == at && at[n..] + [k] == [k];
      WroteHere(s, s', root, at, cur, k, e, value, j);
    } else {
      var key := at[n];
      DownOne(s, root, at, n, d, j);
      WroteIsAssign(s, s', root, at, cur, k, e, value, n + 1, s.dicts[d][key].node, j.fields[key]);
      WroteBelow(s, s', root, at, cur, k, e, n, d, j, Assign(j.fields[key], at[n + 1..] + [k], value));
      AssignOneDown(j, at[n..] + [k], value);
      assert (at[n..] + [k])[1..] == at[n + 1..] + [k];
    }
  }

  lemma AssignOneDown(j: Json, path: Path, value: Json)
    requires j.Dict? && |path| > 1 && path[0] in j.fields && j.fields[path[0]].Dict?
    ensures Assign(j, path, value) == Dict(j.fields[path[0] := Assign(j.fields[path[0]], path[1..], value)])
  {
  }

  lemma DownOne(s: Store, root: DictNode, at: Path, n: nat, d: DictNode, j: Json)
    requires At(s, root, at).Some? && n < |at| && At(s, root, at[..n]) == Some(d) && Holds(s, d, j)
    ensures at[n] in j.fields && at[n] in s.dicts[d] && s.dicts[d][at[n]].Sub?
    ensures At(s, root, at[..n + 1]) == Some(s.dicts[d][at[n]].node)
            && Holds(s, s.dicts[d][at[n]].node, j.fields[at[n]])
  {
    AtPrefix(s, root, at, n + 1);
    assert at[..n + 1] == at[..n] + [at[n]];
    AtOneMore(s, root, at[..n], at[n]);
    assert EntryHolds(s, s.dicts[d][at[n]], j.fields[at[n]]);
  }

  lemma WroteHere(s: Store, s': Store, root: DictNode, at: Path, cur: DictNode, k: string, e: Entry, value: Json,
                  j: Json)
    requires Tree(s, root) && Wrote(s, s', root, cur, k, e) && At(s, root, at) == Some(cur) && EntryHolds(s', e, value)
    requires Holds(s, cur, j)
    ensures Holds(s', cur, Dict(j.fields[k := value]))
  {
    forall key | key in j.fields && key != k ensures EntryHolds(s', s'.dicts[cur][key], j.fields[key]) {
      FrameEntry(s, s', root, at, cur, k, e, at, cur, j, key);
    }
  }

  lemma WroteBelow(s: Store, s': Store, root: DictNode, at: Path, cur: DictNode, k: string, e: Entry,
                   n: nat, d: DictNode, j: Json, below: Json)
    requires Tree(s, root) && Wrote(s, s', root, cur, k, e) && At(s, root, at) == Some(cur)
    requires n < |at| && At(s, root, at[..n]) == Some(d) && Holds(s, d, j)
    requires at[n] in j.fields && EntryHolds(s', s.dicts[d][at[n]], below)
    ensures Holds(s', d, Dict(j.fields[at[n] := below]))
  {
    if d == cur { OnePath(s, root, at[..n], at); }
    forall key | key in j.fields && key != at[n] ensures EntryHolds(s', s.dicts[d][key], j.fields[key]) {
      assert (at[..n] + [key])[n] == key;
      FrameEntry(s, s', root, at, cur, k, e, at[..n], d, j, key);
    }
  }

  /** Paths to `cur` and above are as they were. */
  lemma {:induction false} WroteKeepsAt(s: Store, s': Store, root: DictNode, at: Path, cur: DictNode, k: string,
                                        e: Entry, n: nat)
    requires Tree(s, root) && Wrote(s, s', root, cur, k, e) && At(s, root, at) == Some(cur) && n <= |at|
    ensures At(s', root, at[..n]) == At(s, root, at[..n])
    decreases n
  {
    if n > 0 {
      WroteKeepsAt(s, s', root, at, cur, k, e, n - 1);
      assert at[..n] == at[..n - 1] + [at[n - 1]];
      AtOneMore(s, root, at[..n - 1], at[n - 1]);
      AtOneMore(s', root, at[..n - 1], at[n - 1]);
      AtPrefix(s, root, at, n - 1);
      AtPrefix(s, root, at, n);
      if At(s, root, at[..n - 1]) == Some(cur) { OnePath(s, root, at[..n - 1], at); }
    }
  }

  /** Making the dict a path needs first changes nothing about assigning further down. */
  lemma {:induction false} AssignThrough(j: Json, p: Path, q: Path, value: Json)
    requires j.Dict? && p != [] && q != [] && (Get(j, p).None? || Get(j, p).value.Leaf?)
    ensures Assign(Assign(j, p, EMPTY), p + q, value) == Assign(j, p + q, value)
    decreases |p|
  {
    assert (p + q)[1..] == p[1..] + q;
    if |p| == 1 {
      assert p == [p[0]];
      if p[0] in j.fields { OneStep(j, p[0]); }
    } else {
      var next := if p[0] in j.fields && j.fields[p[0]].Dict? then j.fields[p[0]] else EMPTY;
      AssignThrough(next, p[1..], q, value);
    }
  }

  // --- The method ------------------------------------------------------------------------------

  /** What an entry stands for: a value, or a loose dict with all that is under it. */
  ghost predicate Carries(s: Store, root: DictNode, e: Entry, j: Json) {
    match e
    case Val(text) => j == Leaf(text)
    case Sub(n) => Loose(s, root, n) && Holds(s, n, j)
  }

  /** `_assign_path(target, path, value)`, where `target` hangs at `pre` under `root`: what `root` holds changes
      by that one assignment. Only dicts of the store change, and only fresh ones join it. A value that is a dict
      itself is not copied but hung there. */
  method AssignPath(target: DictNode, path: Path, value: Entry, ghost meant: Json,
                    ghost root: DictNode, ghost pre: Path, ghost j: Json, ghost s: Store) returns (ghost s': Store)
    requires path != [] && Mirrors(s) && Tree(s, root) && Holds(s, root, j) && At(s, root, pre) == Some(target)
    requires Carries(s, root, value, meant)
    modifies s.dicts.Keys
    ensures s.dicts.Keys <= s'.dicts.Keys && fresh(s'.dicts.Keys - s.dicts.Keys)
    ensures Mirrors(s') && Tree(s', root) && Holds(s', root, Assign(j, pre + path, meant))
    ensures KeepsLoose(s, s', root, value)
  {
    var current: DictNode;
    ghost var now: Json, at: Path, s1: Store;
    current, at, now, s1 := DescendAll(target, path, meant, root, pre, j, s);
    s' := WriteLast(current, path[|path| - 1], value, meant, root, at, now, s1);
  }

  /** `for part in path[:-1]`: down to the dict the value goes into. */
  method DescendAll(target: DictNode, path: Path, ghost value: Json,
                    ghost root: DictNode, ghost pre: Path, ghost j: Json, ghost s: Store)
    returns (current: DictNode, ghost at: Path, ghost now: Json, ghost s': Store)
    requires path != [] && Mirrors(s) && Tree(s, root) && Holds(s, root, j) && At(s, root, pre) == Some(target)
    modifies s.dicts.Keys
    ensures s.dicts.Keys <= s'.dicts.Keys && fresh(s'.dicts.Keys - s.dicts.Keys)
    ensures Mirrors(s') && Tree(s', root) && Holds(s', root, now) && At(s', root, at) == Some(current)
    ensures Assign(now, at + [path[|path| - 1]], value) == Assign(j, pre + path, value)
    ensures KeepsLoose(s, s', root, NOTHING)
  {
    current, at, now, s' := target, pre, j, s;
    assert path[0..] == path;
    for i := 0 to |path| - 1
      invariant s.dicts.Keys <= s'.dicts.Keys && fresh(s'.dicts.Keys - s.dicts.Keys)
      invariant Mirrors(s') && Tree(s', root) && Holds(s', root, now) && At(s', root, at) == Some(current)
      invariant Assign(now, at + path[i..], value) == Assign(j, pre + path, value)
      invariant KeepsLoose(s, s', root, NOTHING)
    {
      NextPart(at, path, i);
      current, at, now, s' := Descend(current, path[i], path[i + 1..], value, root, at, now, s');
    }
    assert path[|path| - 1..] == [path[|path| - 1]];
  }

  /** An entry that is no dict, so no loose one either. */
  const NOTHING := Val("")

  lemma NextPart(at: Path, path: Path, i: nat)
    requires i < |path|
    ensures at + path[i..] == at + [path[i]] + path[i + 1..]
    ensures i < |path| - 1 ==> path[i + 1..] != []
  {
  }

  /** `current[path[-1]] = value`. */
  method WriteLast(current: DictNode, last: string, value: Entry, ghost meant: Json,
                   ghost root: DictNode, ghost at: Path, ghost j: Json, ghost s: Store) returns (ghost s': Store)
    requires Mirrors(s) && Tree(s, root) && Holds(s, root, j) && At(s, root, at) == Some(current)
    requires Carries(s, root, value, meant)
    modifies s.dicts.Keys
    ensures s'.dicts.Keys == s.dicts.Keys
    ensures Mirrors(s') && Tree(s', root) && Holds(s', root, Assign(j, at + [last], meant))
    ensures KeepsLoose(s, s', root, value)
  {
    HoldsAt(s, root, j, at);
    current.entries := current.entries[last := value];
    s' := Store(s.dicts[current := current.entries],
                if value.Sub? then s.places[value.node := Place(current, last)] else s.places);
    WriteIsAssign(s, s', root, at, current, last, value, meant, j);
  }

  lemma WriteIsAssign(s: Store, s': Store, root: DictNode, at: Path, cur: DictNode, last: string, value: Entry,
                      meant: Json, j: Json)
    requires Tree(s, root) && Holds(s, root, j) && At(s, root, at) == Some(cur) && Carries(s, root, value, meant)
    requires Wrote(s, s', root, cur, last, value)
    ensures Tree(s', root) && Holds(s', root, Assign(j, at + [last], meant)) && KeepsLoose(s, s', root, value)
  {
    WroteKeepsTree(s, s', root, cur, last, value);
    WroteKeepsLoose(s, s', root, at, cur, last, value);
    if value.Sub? { FrameLoose(s, s', root, at, cur, last, value, value.node, [], value.node, meant); }
    assert at[0..] == at && at[..0] == [];
    WroteIsAssign(s, s', root, at, cur, last, value, meant, 0, root, j);
  }

  /** One turn of the loop: the next dict down, made first when there is none. */
  method Descend(current: DictNode, part: string, ghost rest: Path, ghost value: Json,
                 ghost root: DictNode, ghost at: Path, ghost j: Json, ghost s: Store)
    returns (next: DictNode, ghost at': Path, ghost j': Json, ghost s': Store)
    requires Mirrors(s) && Tree(s, root) && Holds(s, root, j) && At(s, root, at) == Some(current) && rest != []
    modifies s.dicts.Keys
    ensures s.dicts.Keys <= s'.dicts.Keys && fresh(s'.dicts.Keys - s.dicts.Keys)
    ensures Mirrors(s') && Tree(s', root) && Holds(s', root, j')
    ensures at' == at + [part] && At(s', root, at') == Some(next)
    ensures Assign(j', at' + rest, value) == Assign(j, at' + rest, value)
    ensures KeepsLoose(s, s', root, NOTHING)
  {
    HoldsAt(s, root, j, at);
    GetOneMore(j, at, part);
    AtOneMore(s, root, at, part);
    if part in current.entries {
      ghost var below := Get(j, at).value;
      assert EntryHolds(s, s.dicts[current][part], below.fields[part]);
    }
    if part in current.entries && current.entries[part].Sub? {
      next := current.entries[part].node;
      at', j', s' := at + [part], j, s;
    } else {
      next, s' := MakeBelow(current, part, root, at, j, s);
      at', j' := at + [part], Assign(j, at + [part], EMPTY);
      AssignThrough(j, at', rest, value);
    }
  }

  /** `current[part] = {}`. */
  method MakeBelow(current: DictNode, part: string, ghost root: DictNode, ghost at: Path, ghost j: Json, ghost s: Store)
    returns (next: DictNode, ghost s': Store)
    requires Mirrors(s) && Tree(s, root) && Holds(s, root, j) && At(s, root, at) == Some(current)
    modifies s.dicts.Keys
    ensures s.dicts.Keys <= s'.dicts.Keys && fresh(s'.dicts.Keys - s.dicts.Keys)
    ensures Mirrors(s') && Tree(s', root) && Holds(s', root, Assign(j, at + [part], EMPTY))
    ensures At(s', root, at + [part]) == Some(next)
    ensures KeepsLoose(s, s', root, NOTHING)
  {
    HoldsAt(s, root, j, at);
    next := new DictNode();
    current.entries := current.entries[part := Sub(next)];
    s' := Store(s.dicts[current := current.entries][next := map[]], s.places[next := Place(current, part)]);
    FreshBelow(s, s', root, at, current, part, next, j);
  }

  lemma FreshBelow(s: Store, s': Store, root: DictNode, at: Path, cur: DictNode, part: string, n: DictNode, j: Json)
    requires Tree(s, root) && Holds(s, root, j) && At(s, root, at) == Some(cur) && n !in s.dicts
    requires Wrote(s, s', root, cur, part, Sub(n)) && s'.dicts[n] == map[]
    ensures Tree(s', root) && Holds(s', root, Assign(j, at + [part], EMPTY)) && KeepsLoose(s, s', root, NOTHING)
    ensures At(s', root, at + [part]) == Some(n)
  {
    WroteKeepsTree(s, s', root, cur, part, Sub(n));
    WroteKeepsLoose(s, s', root, at, cur, part, Sub(n));
    assert at[0..] == at && at[..0] == [] && at[..|at|] == at;
    WroteIsAssign(s, s', root, at, cur, part, Sub(n), EMPTY, 0, root, j);
    WroteKeepsAt(s, s', root, at, cur, part, Sub(n), |at|);
    AtOneMore(s', root, at, part);
  }
}
