/** Repairing flattened config rows (models/config.py, `Config.repair_config_rows`): for one dict
    config key, the legacy rows under it or under its aliases are merged back into its dict. */
module ConfigRepair {
  import opened Text
  import opened ConfigPaths
  import F = ConfigFragments
  import opened ConfigStore

  /** One entry of DICT_CONFIG_KEY_ALIASES, its own key first; `api` says it is one of API_CONFIG_KEYS. */
  datatype Section = Section(prefixes: seq<string>, api: bool)

  /** A legacy row. */
  datatype StoredRow = StoredRow(key: string, value: Json)

  /** The same as loaded: a value that is a dict is an object. */
  datatype LoadedRow = LoadedRow(key: string, value: Entry)

  // --- Which path a row stands for -----------------------------------------------------

  /** The rest of the key after the first prefix it starts with. */
  function FragmentOf(prefixes: seq<string>, key: string): Option<string> {
    if prefixes == [] then None
    else if prefixes[0] + "." <= key then Some(key[|prefixes[0]| + 1..])
    else FragmentOf(prefixes[1..], key)
  }

  function PathOfFragment(api: bool, fragment: string): (path: Option<Path>)
    ensures path.Some? ==> path.value != [] && (api ==> |path.value| > 1)
  {
    if api then
      var split := F.SplitOf(F.API_CONFIG_FIELDS, fragment);
      if split.None? then None else
        Some([split.value.connection] + split.value.field)
    else Some(Split(fragment, '.'))
  }

  function PathOf(section: Section, key: string): (path: Option<Path>)
    ensures path.Some? ==> path.value != [] && (section.api ==> |path.value| > 1)
  {
    var fragment := FragmentOf(section.prefixes, key);
    if fragment.None? then None else PathOfFragment(section.api, fragment.value)
  }

  /** Whether a row is merged: an API row is left alone when its connection key holds no dict. */
  predicate Merges(section: Section, j: Json, key: string)
    requires j.Dict?
  {
    var path := PathOf(section, key);
    path.Some? && !(section.api && path.value[0] in j.fields && j.fields[path.value[0]].Leaf?)
  }

  function Merged(section: Section, j: Json, row: StoredRow): (r: Json)
    requires j.Dict?
    ensures r.Dict?
  {
    if Merges(section, j, row.key) then Assign(j, PathOf(section, row.key).value, row.value) else j
  }

  datatype Outcome = Outcome(repaired: Json, orphans: seq<string>)

  /** The merge of `rows`, in the order they come, and the keys of the rows it makes superfluous. */
  function MergeAll(section: Section, j: Json, rows: seq<StoredRow>): (o: Outcome)
    requires j.Dict?
    ensures o.repaired.Dict?
    decreases |rows|
  {
    if rows == [] then Outcome(j, [])
    else
      var before := MergeAll(section, j, rows[..|rows| - 1]);
      var row := rows[|rows| - 1];
      Outcome(Merged(section, before.repaired, row),
              before.orphans + if Merges(section, before.repaired, row.key) then [row.key] else [])
  }

  // --- The loop over one section's rows ------------------------------------------------------

  /** The loaded rows still to be gone over. One under the section stands for what it holds, in a dict of its own if it
      is one. */
  ghost predicate WaitingIn(s: Store, root: DictNode, section: Section, loaded: seq<LoadedRow>, rows: seq<StoredRow>) {
    && |loaded| == |rows|
    && (forall i :: 0 <= i < |rows| ==>
          && loaded[i].key == rows[i].key
          && (FragmentOf(section.prefixes, rows[i].key).Some? ==> Carries(s, root, loaded[i].value, rows[i].value)))
    && (forall i, k ::
          0 <= i < k < |rows| && loaded[i].value.Sub? && loaded[i].value == loaded[k].value ==>
            !(FragmentOf(section.prefixes, rows[i].key).Some? && FragmentOf(section.prefixes, rows[k].key).Some?))
  }

  class Repair {
    var repaired: DictNode
    var orphans: seq<string>
    ghost var store: Store

    ghost predicate Stands(j: Json)
      reads this, store.dicts.Keys
    {
      Mirrors(store) && Tree(store, repaired) && Holds(store, repaired, j)
    }

    /** `existing.value` when it is a dict, a fresh dict otherwise. */
    constructor (existing: Option<DictNode>, ghost j: Json, ghost s: Store)
      requires Mirrors(s) && Forest(s)
      requires existing.Some? ==> Tree(s, existing.value) && Holds(s, existing.value, j)
      ensures orphans == [] && Stands(if existing.Some? then j else EMPTY)
      ensures existing.Some? ==> repaired == existing.value && store == s
      ensures existing.None? ==> fresh(repaired) && store == Store(s.dicts[repaired := map[]], s.places)
    {
      orphans := [];
      if existing.Some? {
        repaired, store := existing.value, s;
      } else {
        var empty := new DictNode();
        repaired, store := empty, Store(s.dicts[empty := map[]], s.places);
      }
    }

    ghost predicate Waiting(section: Section, loaded: seq<LoadedRow>, rows: seq<StoredRow>)
      reads this
    {
      WaitingIn(store, repaired, section, loaded, rows)
    }

    method MergeRows(section: Section, loaded: seq<LoadedRow>, ghost rows: seq<StoredRow>, ghost j: Json)
      requires j.Dict? && Stands(j) && Waiting(section, loaded, rows)
      modifies this, store.dicts.Keys
      ensures repaired == old(repaired) && fresh(store.dicts.Keys - old(store.dicts.Keys))
      ensures Stands(MergeAll(section, j, rows).repaired)
      ensures orphans == old(orphans) + MergeAll(section, j, rows).orphans
      ensures KeepsBut(old(store), store, repaired, Hung(loaded, MergeAll(section, j, rows).orphans))
      ensures old(store.dicts.Keys) <= store.dicts.Keys
    {
      assert rows[..0] == [] && loaded[0..] == loaded && rows[0..] == rows;
      for i := 0 to |loaded|
        invariant repaired == old(repaired) && fresh(store.dicts.Keys - old(store.dicts.Keys))
        invariant Midway(section, loaded, rows, j, i, old(store), old(orphans))
      {
        Turn(section, loaded, rows, j, i, old(store), old(orphans));
      }
      assert rows[..|rows|] == rows;
    }

    /** The first `i` rows have been gone over; other dicts that hung nowhere at the start still hold what they held. */
    ghost predicate Midway(section: Section, loaded: seq<LoadedRow>, rows: seq<StoredRow>, j: Json, i: nat,
                           start: Store, first: seq<string>)
      requires j.Dict? && |loaded| == |rows|
      reads this, store.dicts.Keys
    {
      && i <= |rows| && start.dicts.Keys <= store.dicts.Keys
      && var o := MergeAll(section, j, rows[..i]);
         && Stands(o.repaired) && orphans == first + o.orphans && Waiting(section, loaded[i..], rows[i..])
         && KeepsBut(start, store, repaired, Hung(loaded, o.orphans))
    }

    method Turn(section: Section, loaded: seq<LoadedRow>, ghost rows: seq<StoredRow>, ghost j: Json, i: nat,
                ghost start: Store, ghost first: seq<string>)
      requires j.Dict? && i < |loaded| == |rows| && Midway(section, loaded, rows, j, i, start, first)
      modifies this, store.dicts.Keys
      ensures repaired == old(repaired) && fresh(store.dicts.Keys - old(store.dicts.Keys))
      ensures Midway(section, loaded, rows, j, i + 1, start, first)
    {
      ghost var before, s := MergeAll(section, j, rows[..i]), store;
      RowsFrom(loaded, rows, i);
      NextRow(section, loaded[i..], rows[i..], before.repaired);
      HungOneMore(section, j, loaded, rows, i);
      KeepsOn(start, s, store, repaired, Hung(loaded, before.orphans),
              Hung(loaded, MergeAll(section, j, rows[..i + 1]).orphans),
              if Merges(section, before.repaired, rows[i].key) then loaded[i].value else NOTHING);
    }

    /** One turn of the loop: the first of the rows still waiting is merged and the others wait on. */
    method NextRow(section: Section, loaded: seq<LoadedRow>, ghost rows: seq<StoredRow>, ghost j: Json)
      requires j.Dict? && Stands(j) && Waiting(section, loaded, rows) && loaded != []
      modifies this, store.dicts.Keys
      ensures repaired == old(repaired) && fresh(store.dicts.Keys - old(store.dicts.Keys))
      ensures old(store.dicts.Keys) <= store.dicts.Keys
      ensures Stands(Merged(section, j, rows[0])) && Waiting(section, loaded[1..], rows[1..])
      ensures orphans == old(orphans) + if Merges(section, j, rows[0].key) then [rows[0].key] else []
      ensures KeepsLoose(old(store), store, repaired,
                         if Merges(section, j, rows[0].key) then loaded[0].value else NOTHING)
    {
      ghost var s := store;
      MergeRow(section, loaded[0], rows[0].value, j);
      forall i | 0 <= i < |rows[1..]|
        ensures loaded[1..][i].key == rows[1..][i].key
        ensures FragmentOf(section.prefixes, rows[1..][i].key).Some? ==>
                  Carries(store, repaired, loaded[1..][i].value, rows[1..][i].value)
      {
        assert loaded[1..][i] == loaded[i + 1] && rows[1..][i] == rows[i + 1];
        assert FragmentOf(section.prefixes, rows[i + 1].key).Some? ==>
                 Carries(s, repaired, loaded[i + 1].value, rows[i + 1].value);
      }
    }

    /** The body of the loop. */
    method MergeRow(section: Section, row: LoadedRow, ghost value: Json, ghost j: Json)
      requires j.Dict? && Stands(j)
      requires FragmentOf(section.prefixes, row.key).Some? ==> Carries(store, repaired, row.value, value)
      modifies this, store.dicts.Keys
      ensures repaired == old(repaired) && fresh(store.dicts.Keys - old(store.dicts.Keys))
      ensures old(store.dicts.Keys) <= store.dicts.Keys
      ensures Stands(Merged(section, j, StoredRow(row.key, value)))
      ensures orphans == old(orphans) + if Merges(section, j, row.key) then [row.key] else []
      ensures KeepsLoose(old(store), store, repaired, if Merges(section, j, row.key) then row.value else NOTHING)
    {
      var fragment := FragmentOf(section.prefixes, row.key);
      if fragment.None? {
        return;
      }
      var merged := false;
      if section.api {
        var split := F.SplitApiConfigFragment(fragment.value);
        if split.Some? {
          merged := MergeApiValue(split.value.connection, split.value.field, row.value, value, j);
        }
      } else {
        MergeValue(Split(fragment.value, '.'), row.value, value, j);
        merged := true;
      }
      if merged {
        orphans := orphans + [row.key];
      }
    }

    method MergeValue(path: Path, value: Entry, ghost meant: Json, ghost j: Json)
      requires path != [] && Stands(j) && Carries(store, repaired, value, meant)
      modifies this`store, store.dicts.Keys
      ensures fresh(store.dicts.Keys - old(store.dicts.Keys)) && old(store.dicts.Keys) <= store.dicts.Keys
      ensures Stands(Assign(j, path, meant))
      ensures KeepsLoose(old(store), store, repaired, value)
    {
      ghost var s' := AssignPath(repaired, path, value, meant, repaired, [], j, store);
      store := s';
      assert [] + path == path;
    }

    /** `target = repaired.setdefault(object_key, {})`; the row is left alone when that is not a dict. */
    method MergeApiValue(objectKey: string, fieldPath: Path, value: Entry, ghost meant: Json, ghost j: Json)
      returns (merged: bool)
      requires fieldPath != [] && Stands(j) && Carries(store, repaired, value, meant)
      modifies this`store, store.dicts.Keys
      ensures fresh(store.dicts.Keys - old(store.dicts.Keys)) && old(store.dicts.Keys) <= store.dicts.Keys
      ensures merged <==> !(objectKey in j.fields && j.fields[objectKey].Leaf?)
      ensures Stands(if merged then Assign(j, [objectKey] + fieldPath, meant) else j)
      ensures KeepsLoose(old(store), store, repaired, if merged then value else NOTHING)
    {
      assert objectKey in j.fields ==> EntryHolds(store, store.dicts[repaired][objectKey], j.fields[objectKey]);
      assert objectKey in j.fields ==> (repaired.entries[objectKey].Val? <==> j.fields[objectKey].Leaf?);
      if objectKey in repaired.entries && repaired.entries[objectKey].Val? {
        return false;
      }
      ghost var s' := AssignBelow(repaired, objectKey, fieldPath, value, meant, j, store);
      store := s';
      return true;
    }
  }

  /** The dicts of the rows that were merged, which hang in the repaired one now. */
  ghost function Hung(loaded: seq<LoadedRow>, orphans: seq<string>): set<DictNode> {
    set row <- loaded | row.key in orphans && row.value.Sub? :: row.value.node
  }

  lemma RowsFrom(loaded: seq<LoadedRow>, rows: seq<StoredRow>, i: nat)
    requires i < |rows| == |loaded|
    ensures rows[..i + 1][..i] == rows[..i] && rows[..i + 1][i] == rows[i]
    ensures loaded[i..][0] == loaded[i] && rows[i..][0] == rows[i]
    ensures loaded[i..][1..] == loaded[i + 1..] && rows[i..][1..] == rows[i + 1..]
  {
  }

  lemma KeepsOn(s: Store, s1: Store, s2: Store, root: DictNode, moved: set<DictNode>, moved': set<DictNode>, e: Entry)
    requires KeepsBut(s, s1, root, moved) && KeepsLoose(s1, s2, root, e) && s.dicts.Keys <= s1.dicts.Keys
    requires moved <= moved' && (e.Sub? ==> e.node in moved')
    ensures KeepsBut(s, s2, root, moved')
  {
  }

  lemma HungOneMore(section: Section, j: Json, loaded: seq<LoadedRow>, rows: seq<StoredRow>, i: nat)
    requires j.Dict? && i < |rows| == |loaded| && loaded[i].key == rows[i].key
    ensures var before, after := MergeAll(section, j, rows[..i]), MergeAll(section, j, rows[..i + 1]);
            && Hung(loaded, before.orphans) <= Hung(loaded, after.orphans)
            && (Merges(section, before.repaired, rows[i].key) && loaded[i].value.Sub?
                ==> loaded[i].value.node in Hung(loaded, after.orphans))
  {
    assert rows[..i + 1][..i] == rows[..i] && rows[..i + 1][i] == rows[i];
    assert loaded[i] in loaded;
  }

  /** The dict under `objectKey`, made first when there is none, and the assignment into it. */
  method AssignBelow(root: DictNode, objectKey: string, fieldPath: Path, value: Entry, ghost meant: Json,
                     ghost j: Json, ghost s: Store) returns (ghost s': Store)
    requires fieldPath != [] && Mirrors(s) && Tree(s, root) && Holds(s, root, j) && Carries(s, root, value, meant)
    modifies s.dicts.Keys
    ensures s.dicts.Keys <= s'.dicts.Keys && fresh(s'.dicts.Keys - s.dicts.Keys)
    ensures Mirrors(s') && Tree(s', root) && Holds(s', root, Assign(j, [objectKey] + fieldPath, meant))
    ensures KeepsLoose(s, s', root, value)
  {
    var target: DictNode;
    ghost var at: Path, now: Json, s1: Store;
    target, at, now, s1 := Descend(root, objectKey, fieldPath, meant, root, [], j, s);
    assert at == [objectKey];
    s' := AssignPath(target, fieldPath, value, meant, root, at, now, s1);
  }

  // --- Repair undoes flattening ----------------------------------------------------------------

  /** A leaf of the nested value, written as a row under one of the section's prefixes. */
  datatype Flat = Flat(prefix: string, path: Path, value: string)

  function RowOf(flat: Flat): StoredRow
    requires flat.path != []
  {
    StoredRow(flat.prefix + ("." + Join(flat.path, '.')), Leaf(flat.value))
  }

  function RowsOf(flats: seq<Flat>): seq<StoredRow>
    requires forall flat <- flats :: flat.path != []
  {
    seq(|flats|, i requires 0 <= i < |flats| => RowOf(flats[i]))
  }

  function KeysOf(rows: seq<StoredRow>): seq<string> {
    seq(|rows|, i requires 0 <= i < |rows| => rows[i].key)
  }

  /** No prefix, with its dot, starts another. */
  ghost predicate PrefixFree(prefixes: seq<string>) {
    forall i, k :: 0 <= i < |prefixes| && 0 <= k < |prefixes| && i != k ==> !(prefixes[i] + "." <= prefixes[k] + ".")
  }

  /** Paths whose row can be read back: no key holds a dot, but for an API connection key, which has to be
      splittable. */
  predicate Readable(section: Section, path: Path) {
    if section.api then
      |path| > 1 && F.DotFree(path[1..]) && F.Splittable(F.API_CONFIG_FIELDS, F.Fragment(path[0], path[1..]))
    else F.DotFree(path)
  }

  lemma {:induction false} FragmentReadsBack(prefixes: seq<string>, k: nat, rest: string)
    requires k < |prefixes| && PrefixFree(prefixes)
    ensures FragmentOf(prefixes, prefixes[k] + ("." + rest)) == Some(rest)
    decreases |prefixes|
  {
    var key, own := prefixes[k] + ("." + rest), prefixes[k] + ".";
    assert key == own + rest;
    if k == 0 {
      assert key[|own|..] == rest;
    } else {
      var first := prefixes[0] + ".";
      PrefixesOfOne(first, own, rest);
      assert PrefixFree(prefixes[1..]) by {
        forall i, n | 0 <= i < |prefixes[1..]| && 0 <= n < |prefixes[1..]| && i != n
          ensures !(prefixes[1..][i] + "." <= prefixes[1..][n] + ".") {
          assert !(prefixes[i + 1] + "." <= prefixes[n + 1] + ".");
        }
      }
      FragmentReadsBack(prefixes[1..], k - 1, rest);
    }
  }

  lemma PrefixesOfOne(a: string, b: string, rest: string)
    ensures a <= b + rest ==> a <= b || b <= a
  {
    if a <= b + rest {
      if |a| <= |b| { assert a == b[..|a|]; } else { assert b == a[..|b|]; }
    }
  }

  lemma ApiKeyReadsBack(path: Path)
    requires Readable(Section([], true), path)
    ensures PathOfFragment(true, Join(path, '.')) == Some(path)
  {
    var f := F.Fragment(path[0], path[1..]);
    F.KnownFieldsAreDotFree();
    F.SplitUndoesJoinIff(F.API_CONFIG_FIELDS, f);
    assert F.JoinFragment(f) == Join(path, '.');
    assert [path[0]] + path[1..] == path;
  }

  lemma KeyReadsBack(section: Section, flat: Flat)
    requires PrefixFree(section.prefixes) && flat.prefix in section.prefixes && flat.path != []
    requires Readable(section, flat.path)
    ensures PathOf(section, RowOf(flat).key) == Some(flat.path)
  {
    var k :| 0 <= k < |section.prefixes| && section.prefixes[k] == flat.prefix;
    FragmentReadsBack(section.prefixes, k, Join(flat.path, '.'));
    if section.api {
      ApiKeyReadsBack(flat.path);
    } else {
      SplitUndoesJoin(flat.path, '.');
    }
  }

  /** `flats` are leaves of `j`, under prefixes of the section. */
  ghost predicate Flattened(section: Section, j: Json, flats: seq<Flat>) {
    forall flat <- flats :: flat.prefix in section.prefixes && LeafAt(j, flat.path, Leaf(flat.value))
  }

  ghost predicate AllReadable(section: Section, j: Json) {
    forall path, value :: LeafAt(j, path, value) ==> Readable(section, path)
  }

  function PathRows(flats: seq<Flat>): seq<Row> {
    seq(|flats|, i requires 0 <= i < |flats| => Row(flats[i].path, Leaf(flats[i].value)))
  }

  lemma {:induction false} MergeIsAssign(section: Section, j: Json, flats: seq<Flat>)
    requires PrefixFree(section.prefixes) && j.Dict? && AllReadable(section, j) && Flattened(section, j, flats)
    ensures LeavesOf(PathRows(flats), j)
    ensures MergeAll(section, EMPTY, RowsOf(flats)) == Outcome(AssignAll(EMPTY, PathRows(flats)), KeysOf(RowsOf(flats)))
    decreases |flats|
  {
    if flats != [] {
      var before, last := flats[..|flats| - 1], flats[|flats| - 1];
      AllButLast(flats);
      MergeIsAssign(section, j, before);
      assert LeafAt(j, last.path, Leaf(last.value));
      KeyReadsBack(section, last);
      LeavesAreRows(j, PathRows(before));
      LastMerges(section, j, AssignAll(EMPTY, PathRows(before)), PathRows(before), last);
    }
  }

  lemma AllButLast(flats: seq<Flat>)
    requires flats != [] && forall flat <- flats :: flat.path != []
    ensures var before, last := flats[..|flats| - 1], flats[|flats| - 1];
            && RowsOf(flats) == RowsOf(before) + [RowOf(last)]
            && PathRows(flats) == PathRows(before) + [Row(last.path, Leaf(last.value))]
            && KeysOf(RowsOf(flats)) == KeysOf(RowsOf(before)) + [RowOf(last).key]
  {
  }

  lemma LastMerges(section: Section, j: Json, t: Json, rows: seq<Row>, flat: Flat)
    requires j.Dict? && AllReadable(section, j) && t.Dict? && LeavesOf(rows, j)
    requires forall path, value :: LeafAt(t, path, value) <==> Row(path, value) in rows
    requires flat.path != [] && PathOf(section, RowOf(flat).key) == Some(flat.path)
    ensures Merges(section, t, RowOf(flat).key)
  {
    var k := flat.path[0];
    assert forall path, value :: LeafAt(t, path, value) ==> LeafAt(j, path, value);
    if k in t.fields {
      OneStep(t, k);
      assert t.fields[k].Leaf? ==> LeafAt(t, [k], t.fields[k]);
    }
  }

  /** A nested value written out as one row per leaf, under the key itself or an alias, comes back from the repair
      as it was exactly when no dict inside it is empty, whatever order the rows come in and however often; and all
      of the rows are then deleted. */
  lemma RepairRebuilds(section: Section, j: Json, flats: seq<Flat>)
    requires PrefixFree(section.prefixes) && j.Dict? && AllReadable(section, j) && Flattened(section, j, flats)
    requires forall path, value :: LeafAt(j, path, value) ==> Row(path, value) in PathRows(flats)
    ensures MergeAll(section, EMPTY, RowsOf(flats)).repaired == j <==> NoEmptyInner(j)
    ensures MergeAll(section, EMPTY, RowsOf(flats)).orphans == KeysOf(RowsOf(flats))
  {
    MergeIsAssign(section, j, flats);
    RepairUndoesFlattening(j, PathRows(flats));
  }

  // --- The sections -----------------------------------------------------------------------------

  const DICT_SECTIONS: seq<Section> := [
    Section(["openai.api_configs", "OPENAI_API_CONFIGS"], true),
    Section(["ollama.api_configs", "OLLAMA_API_CONFIGS"], true),
    Section(["rag.mineru_params", "MINERU_PARAMS"], false),
    Section(["rag.docling_params", "DOCLING_PARAMS"], false),
    Section(["web.search.linkup_search_params", "LINKUP_SEARCH_PARAMS"], false),
    Section(["image_generation.automatic1111.api_params", "AUTOMATIC1111_PARAMS"], false),
    Section(["image_generation.openai.params", "IMAGES_OPENAI_API_PARAMS"], false),
    Section(["audio.tts.openai.params", "AUDIO_TTS_OPENAI_PARAMS"], false),
    Section(["models.default_metadata", "DEFAULT_MODEL_METADATA"], false),
    Section(["models.default_params", "DEFAULT_MODEL_PARAMS"], false),
    Section(["task.model.params", "TASK_MODEL_PARAMS"], false),
    Section(["ui.default_interface_settings", "DEFAULT_INTERFACE_SETTINGS"], false),
    Section(["user.permissions", "USER_PERMISSIONS"], false)
  ]

  lemma DifferentStarts(a: string, b: string)
    requires a != "" && b != "" && a[0] != b[0]
    ensures PrefixFree([a, b])
  {
    assert (a + ".")[0] == a[0] && (b + ".")[0] == b[0];
  }

  lemma SectionsArePrefixFree()
    ensures forall section <- DICT_SECTIONS :: PrefixFree(section.prefixes)
  {
    forall section | section in DICT_SECTIONS ensures PrefixFree(section.prefixes) {
      assert section.prefixes == [section.prefixes[0], section.prefixes[1]];
      DifferentStarts(section.prefixes[0], section.prefixes[1]);
    }
  }
}
