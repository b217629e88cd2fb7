/** `Config.repair_config_rows` in its own form: the rows' values are objects, a section's dict is changed in place, and
    the rows merged into it are hung there rather than copied. */
module ConfigRows {
  import opened Text
  import opened ConfigPaths
  import opened ConfigStore
  import opened ConfigRepair
  import opened ConfigTable

  /** A row's value: no dict, or one that hangs nowhere, with all that is under it. */
  ghost predicate Stored(s: Store, e: Entry, j: Json) {
    match e
    case Val(text) => j == Leaf(text)
    case Sub(n) => n in s.dicts && n !in s.places && Holds(s, n, j)
  }

  /** The rows stand for the table `t`, but for those in `gone`, which were merged and wait to be deleted. */
  ghost predicate StandFor(s: Store, rows: map<string, Entry>, t: Table, gone: set<string>) {
    && Forest(s) && rows.Keys == t.Keys
    && (forall k <- t :: k !in gone ==> Stored(s, rows[k], t[k]))
    && (forall k, l :: k in t && l in t && k != l && k !in gone && l !in gone && rows[k].Sub? ==> rows[k] != rows[l])
  }

  /** A query brings no row with a dict under a section twice. */
  ghost predicate DictsOnce(query: Query, sections: seq<Section>, rows: map<string, Entry>) {
    forall section, there :: section in sections ==> OnceEach(section, query(section, there), rows)
  }

  ghost predicate OnceEach(section: Section, keys: seq<string>, rows: map<string, Entry>) {
    forall i, k :: 0 <= i < k < |keys| && keys[i] == keys[k] && Under(section, keys[i]) && keys[i] in rows ==>
      rows[keys[i]].Val?
  }

  class Config {
    var rows: map<string, Entry>
    ghost var store: Store

    /** The rows, as far as they are not in `gone`, are what the table holds. */
    ghost predicate Represents(t: Table, gone: set<string>)
      reads this, store.dicts.Keys
    {
      Mirrors(store) && StandFor(store, rows, t, gone)
    }

    /** `repair_config_rows`, up to the default models: what the rows hold changes as the repair of the table says. */
    method RepairConfigRows(query: Query, sections: seq<Section>, ghost t: Table)
      requires Represents(t, {}) && Proper(query) && Apart(sections) && Disjoint(sections)
      requires DictsOnce(query, sections, rows)
      modifies this, store.dicts.Keys
      ensures Represents(RepairTable(query, sections, t), {})
    {
      var orphanKeys := [];
      assert sections[..0] == [] && IdsOf([]) == {};
      for i := 0 to |sections|
        invariant fresh(store.dicts.Keys - old(store.dicts.Keys))
        invariant Midway(query, sections, t, i, orphanKeys, old(rows))
      {
        orphanKeys := Turn(query, sections, t, i, orphanKeys, old(rows));
      }
      assert sections[..|sections|] == sections;
      Delete(query, sections, t, orphanKeys);
    }

    /** The first `i` sections had their turn. */
    ghost predicate Midway(query: Query, sections: seq<Section>, t: Table, i: nat, orphanKeys: seq<string>,
                           first: map<string, Entry>)
      reads this, store.dicts.Keys
    {
      && i <= |sections|
      && var r := RepairSections(query, sections[..i], t);
         orphanKeys == r.orphans && Represents(r.table, IdsOf(orphanKeys)) && SameBut(sections, first, rows)
    }

    method Turn(query: Query, sections: seq<Section>, ghost t: Table, i: nat, orphanKeys: seq<string>,
                ghost first: map<string, Entry>) returns (more: seq<string>)
      requires i < |sections| && Midway(query, sections, t, i, orphanKeys, first)
      requires Proper(query) && Apart(sections) && Disjoint(sections) && DictsOnce(query, sections, first)
      modifies this, store.dicts.Keys
      ensures fresh(store.dicts.Keys - old(store.dicts.Keys))
      ensures Midway(query, sections, t, i + 1, more, first)
    {
      ghost var before := RepairSections(query, sections[..i], t);
      TurnFits(query, sections, t, i);
      FoundOnce(query, sections, i, first, rows);
      var keys := query(sections[i], rows.Keys);
      var orphans := RepairSection(sections[i], keys, before.table, IdsOf(orphanKeys));
      TurnAdds(query, sections, t, i);
      IdsOfMore(orphanKeys, orphans);
      assert IsSectionKey(sections, KeyOf(sections[i])) by { assert sections[i] in sections; }
      more := orphanKeys + orphans;
    }

    /** `delete(Config).where(Config.key.in_(orphan_keys))`. */
    method Delete(query: Query, sections: seq<Section>, ghost t: Table, orphanKeys: seq<string>)
      requires var r := RepairSections(query, sections, t);
               orphanKeys == r.orphans && Represents(r.table, IdsOf(orphanKeys))
      modifies `rows
      ensures Represents(RepairTable(query, sections, t), {})
    {
      DeletedStandFor(store, rows, RepairSections(query, sections, t).table, IdsOf(orphanKeys));
      rows := rows - IdsOf(orphanKeys);
    }

    /** One turn of the outer loop. */
    method RepairSection(section: Section, keys: seq<string>, ghost t: Table, ghost gone: set<string>)
      returns (orphans: seq<string>)
      requires Represents(t, gone) && KeyOf(section) !in gone && forall k <- keys :: k in t
      requires forall k <- t :: Under(section, k) ==> k !in gone
      requires !Under(section, KeyOf(section))
      requires OnceEach(section, keys, rows)
      modifies this, store.dicts.Keys
      ensures fresh(store.dicts.Keys - old(store.dicts.Keys))
      ensures orphans == ConfigTable.RepairSection(section, t, keys).orphans
      ensures Represents(ConfigTable.RepairSection(section, t, keys).table, gone + IdsOf(orphans))
      ensures forall k :: k != KeyOf(section) ==>
                (k in rows <==> k in old(rows)) && (k in rows ==> rows[k] == old(rows)[k])
    {
      var repair := StartRepair(section, t, gone);
      ghost var s, s1 := store, repair.store;
      var loaded := Load(keys, rows);
      LoadedWait(s, s1, repair.repaired, rows, t, gone, section, keys, loaded);
      repair.MergeRows(section, loaded, RowsFor(t, keys), Existing(section, t));
      orphans := repair.orphans;
      TurnStandsFor(s, s1, repair.store, repair.repaired, rows, t, gone, section, keys, loaded);
      if orphans != [] {
        rows := rows[KeyOf(section) := Sub(repair.repaired)];
      }
      store := repair.store;
    }

    /** `existing.value` when the section's row holds a dict, a fresh dict otherwise. */
    method StartRepair(section: Section, ghost t: Table, ghost gone: set<string>) returns (repair: Repair)
      requires Represents(t, gone) && KeyOf(section) !in gone
      ensures fresh(repair) && repair.orphans == [] && repair.Stands(Existing(section, t))
      ensures Starts(store, repair.store, repair.repaired, rows, section)
      ensures fresh(repair.store.dicts.Keys - store.dicts.Keys)
    {
      var existing :=
        if KeyOf(section) in rows && rows[KeyOf(section)].Sub? then Some(rows[KeyOf(section)].node) else None;
      ExistingHolds(store, rows, t, gone, section);
      repair := new Repair(existing, Existing(section, t), store);
    }
  }

  /** The rows of some keys. */
  function Load(keys: seq<string>, rows: map<string, Entry>): (loaded: seq<LoadedRow>)
    requires forall k <- keys :: k in rows
    ensures |loaded| == |keys| && forall i :: 0 <= i < |keys| ==> loaded[i] == LoadedRow(keys[i], rows[keys[i]])
  {
    seq(|keys|, i requires 0 <= i < |keys| => LoadedRow(keys[i], rows[keys[i]]))
  }

  function IdsOf(keys: seq<string>): set<string> {
    set k <- keys
  }

  /** Only the sections' own rows differ. */
  ghost predicate SameBut(sections: seq<Section>, before: map<string, Entry>, rows: map<string, Entry>) {
    forall k :: !IsSectionKey(sections, k) ==> (k in rows <==> k in before) && (k in rows ==> rows[k] == before[k])
  }

  /** No row merged so far is the section's own, or lies under it. */
  lemma TurnFits(query: Query, sections: seq<Section>, t: Table, i: nat)
    requires Proper(query) && Apart(sections) && Disjoint(sections) && i < |sections|
    ensures var before := RepairSections(query, sections[..i], t);
            && KeyOf(sections[i]) !in IdsOf(before.orphans)
            && !Under(sections[i], KeyOf(sections[i]))
            && (forall k <- before.table :: Under(sections[i], k) ==> k !in IdsOf(before.orphans))
            && (forall k <- query(sections[i], before.table.Keys) :: k in before.table)
  {
    var before := RepairSections(query, sections[..i], t);
    assert sections[i] in sections;
    forall k | k in before.orphans ensures !Under(sections[i], k) && k != KeyOf(sections[i]) {
      OrphansAreUnder(query, sections[..i], t, k);
      var other :| other in sections[..i] && Under(other, k);
      var m :| 0 <= m < i && sections[..i][m] == other;
      assert sections[m] == other && other in sections;
    }
    assert Selects(sections[i], before.table.Keys, query(sections[i], before.table.Keys));
  }

  lemma FoundOnce(query: Query, sections: seq<Section>, i: nat, before: map<string, Entry>, rows: map<string, Entry>)
    requires DictsOnce(query, sections, before) && SameBut(sections, before, rows) && Apart(sections) && i < |sections|
    requires forall k <- query(sections[i], rows.Keys) :: k in rows
    ensures OnceEach(sections[i], query(sections[i], rows.Keys), rows)
  {
    var keys := query(sections[i], rows.Keys);
    assert sections[i] in sections && OnceEach(sections[i], keys, before);
    forall k | k in keys && Under(sections[i], k) ensures k in before && rows[k] == before[k] {
      UnderIsNoSectionKey(sections, sections[i], k);
    }
  }

  lemma TurnAdds(query: Query, sections: seq<Section>, t: Table, i: nat)
    requires i < |sections|
    ensures var before := RepairSections(query, sections[..i], t);
            var turn := ConfigTable.RepairSection(sections[i], before.table, query(sections[i], before.table.Keys));
            RepairSections(query, sections[..i + 1], t) == Repaired(turn.table, before.orphans + turn.orphans)
  {
    assert sections[..i + 1][..i] == sections[..i];
  }

  lemma DeletedStandFor(s: Store, rows: map<string, Entry>, t: Table, gone: set<string>)
    requires StandFor(s, rows, t, gone)
    ensures StandFor(s, rows - gone, t - gone, {})
  {
  }

  lemma IdsOfMore(a: seq<string>, b: seq<string>)
    ensures IdsOf(a + b) == IdsOf(a) + IdsOf(b)
  {
  }

  lemma ExistingHolds(s: Store, rows: map<string, Entry>, t: Table, gone: set<string>, section: Section)
    requires StandFor(s, rows, t, gone) && KeyOf(section) !in gone
    ensures KeyOf(section) in rows && rows[KeyOf(section)].Sub? ==>
              Tree(s, rows[KeyOf(section)].node) && Holds(s, rows[KeyOf(section)].node, Existing(section, t))
    ensures !(KeyOf(section) in rows && rows[KeyOf(section)].Sub?) ==> Existing(section, t) == EMPTY
  {
    if KeyOf(section) in t { assert Stored(s, rows[KeyOf(section)], t[KeyOf(section)]); }
  }

  /** The dict the section's turn works on: its own row's, or a fresh one. */
  ghost predicate Starts(s: Store, s1: Store, root: DictNode, rows: map<string, Entry>, section: Section) {
    if KeyOf(section) in rows && rows[KeyOf(section)].Sub? then s1 == s && rows[KeyOf(section)] == Sub(root)
    else root !in s.dicts && root !in s.places && s1 == Store(s.dicts[root := map[]], s.places)
  }

  lemma {:induction false} HoldsInMore(s: Store, s1: Store, d: DictNode, j: Json)
    requires Holds(s, d, j) && forall n <- s.dicts :: n in s1.dicts && s1.dicts[n] == s.dicts[n]
    ensures Holds(s1, d, j)
    decreases j
  {
    forall k | k in j.fields ensures EntryHolds(s1, s.dicts[d][k], j.fields[k]) {
      assert EntryHolds(s, s.dicts[d][k], j.fields[k]);
      if s.dicts[d][k].Sub? { HoldsInMore(s, s1, s.dicts[d][k].node, j.fields[k]); }
    }
  }

  /** A row that is not the section's own hangs nowhere as its turn starts. */
  lemma CarriedAtStart(s: Store, s1: Store, root: DictNode, rows: map<string, Entry>, t: Table, gone: set<string>,
                       section: Section, k: string)
    requires StandFor(s, rows, t, gone) && KeyOf(section) !in gone && Starts(s, s1, root, rows, section)
    requires k in t && k !in gone && k != KeyOf(section)
    ensures Carries(s1, root, rows[k], t[k])
  {
    assert Stored(s, rows[k], t[k]);
    if rows[k].Sub? { HoldsInMore(s, s1, rows[k].node, t[k]); }
  }

  lemma LoadedWait(s: Store, s1: Store, root: DictNode, rows: map<string, Entry>, t: Table, gone: set<string>,
                   section: Section, keys: seq<string>, loaded: seq<LoadedRow>)
    requires StandFor(s, rows, t, gone) && KeyOf(section) !in gone && Starts(s, s1, root, rows, section)
    requires forall k <- keys :: k in t
    requires forall k <- t :: Under(section, k) ==> k !in gone
    requires !Under(section, KeyOf(section))
    requires OnceEach(section, keys, rows)
    requires |loaded| == |keys| && forall i :: 0 <= i < |keys| ==> loaded[i] == LoadedRow(keys[i], rows[keys[i]])
    ensures WaitingIn(s1, root, section, loaded, RowsFor(t, keys))
  {
    forall i | 0 <= i < |keys| && Under(section, keys[i]) ensures Carries(s1, root, rows[keys[i]], t[keys[i]]) {
      CarriedAtStart(s, s1, root, rows, t, gone, section, keys[i]);
    }
  }

  /** What was not merged in the turn is stored as before. */
  lemma StoredStill(s: Store, s1: Store, s2: Store, root: DictNode, rows: map<string, Entry>, t: Table,
                    gone: set<string>, section: Section, loaded: seq<LoadedRow>, orphans: seq<string>, k: string)
    requires StandFor(s, rows, t, gone) && KeyOf(section) !in gone && Starts(s, s1, root, rows, section)
    requires forall row <- loaded :: row.key in t && row.value == rows[row.key]
    requires forall o <- orphans :: o !in gone
    requires KeepsBut(s1, s2, root, Hung(loaded, orphans))
    requires k in t && k !in gone && k !in orphans && k != KeyOf(section)
    ensures Stored(s2, rows[k], t[k]) && rows[k] != Sub(root)
  {
    CarriedAtStart(s, s1, root, rows, t, gone, section, k);
  }

  /** After a section's turn the rows stand for the table it leaves. */
  lemma TurnStandsFor(s: Store, s1: Store, s2: Store, root: DictNode, rows: map<string, Entry>, t: Table,
                      gone: set<string>, section: Section, keys: seq<string>, loaded: seq<LoadedRow>)
    requires StandFor(s, rows, t, gone) && KeyOf(section) !in gone && Starts(s, s1, root, rows, section)
    requires forall k <- keys :: k in t
    requires forall k <- t :: Under(section, k) ==> k !in gone
    requires |loaded| == |keys| && forall i :: 0 <= i < |keys| ==> loaded[i] == LoadedRow(keys[i], rows[keys[i]])
    requires var o := MergeAll(section, Existing(section, t), RowsFor(t, keys));
             Tree(s2, root) && Holds(s2, root, o.repaired) && KeepsBut(s1, s2, root, Hung(loaded, o.orphans))
    ensures var r := ConfigTable.RepairSection(section, t, keys);
            StandFor(s2, if r.orphans == [] then rows else rows[KeyOf(section) := Sub(root)], r.table,
                     gone + IdsOf(r.orphans))
  {
    var o := MergeAll(section, Existing(section, t), RowsFor(t, keys));
    forall k | k in o.orphans ensures k !in gone {
      OrphansAreRows(section, Existing(section, t), RowsFor(t, keys), k);
    }
    forall k | k in t && k !in gone && k !in o.orphans && k != KeyOf(section)
      ensures Stored(s2, rows[k], t[k]) && rows[k] != Sub(root)
    {
      StoredStill(s, s1, s2, root, rows, t, gone, section, loaded, o.orphans, k);
    }
    if o.orphans == [] {
      NoOrphansNoChange(section, Existing(section, t), RowsFor(t, keys));
      if KeyOf(section) in t { OwnRowStays(s, s1, s2, root, rows, t, gone, section); }
      SameStandFor(s, s2, rows, t, gone);
    } else {
      NewStandFor(s, s2, root, rows, t, gone, IdsOf(o.orphans), KeyOf(section), o.repaired);
    }
  }

  /** Nothing merged: the section's own row is what it was. */
  lemma OwnRowStays(s: Store, s1: Store, s2: Store, root: DictNode, rows: map<string, Entry>, t: Table,
                    gone: set<string>, section: Section)
    requires StandFor(s, rows, t, gone) && KeyOf(section) in t && KeyOf(section) !in gone
    requires Starts(s, s1, root, rows, section) && Tree(s2, root) && Holds(s2, root, Existing(section, t))
    ensures Stored(s2, rows[KeyOf(section)], t[KeyOf(section)])
  {
    assert Stored(s, rows[KeyOf(section)], t[KeyOf(section)]);
  }

  lemma SameStandFor(s: Store, s2: Store, rows: map<string, Entry>, t: Table, gone: set<string>)
    requires StandFor(s, rows, t, gone) && Forest(s2)
    requires forall k <- t :: k !in gone ==> Stored(s2, rows[k], t[k])
    ensures StandFor(s2, rows, t, gone + IdsOf([]))
  {
    assert gone + IdsOf([]) == gone;
  }

  lemma NewStandFor(s: Store, s2: Store, root: DictNode, rows: map<string, Entry>, t: Table, gone: set<string>,
                    merged: set<string>, own: string, repaired: Json)
    requires StandFor(s, rows, t, gone) && Tree(s2, root) && Holds(s2, root, repaired) && repaired.Dict?
    requires forall k <- t :: k !in gone && k !in merged && k != own ==>
               Stored(s2, rows[k], t[k]) && rows[k] != Sub(root)
    ensures StandFor(s2, rows[own := Sub(root)], t[own := repaired], gone + merged)
  {
  }
}
