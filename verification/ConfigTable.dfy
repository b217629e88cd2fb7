/** The repair over the whole config table (models/config.py, `Config.repair_config_rows`): section after section is
    merged from the rows a query finds, and the rows merged are deleted at the end. */
module ConfigTable {
  import opened Text
  import opened ConfigPaths
  import F = ConfigFragments
  import opened ConfigRepair

  /** The rows by key, as the session holds them. */
  type Table = map<string, Json>

  /** The keys `LIKE 'prefix.%'` brings for a section's prefixes from those there are, in some order. */
  type Query = (Section, set<string>) -> seq<string>

  predicate Under(section: Section, key: string) {
    FragmentOf(section.prefixes, key).Some?
  }

  /** A query brings rows of the table, all those under a prefix among them. It may bring more, since `_` in an alias
      matches any character, and some of them twice. */
  ghost predicate Selects(section: Section, there: set<string>, keys: seq<string>) {
    (forall k <- keys :: k in there) && (forall k <- there :: Under(section, k) ==> k in keys)
  }

  ghost predicate Proper(query: Query) {
    forall section, there :: Selects(section, there, query(section, there))
  }

  function RowFor(t: Table, key: string): StoredRow {
    StoredRow(key, if key in t then t[key] else EMPTY)
  }

  function RowsFor(t: Table, keys: seq<string>): (rows: seq<StoredRow>)
    ensures |rows| == |keys| && forall i :: 0 <= i < |keys| ==> rows[i] == RowFor(t, keys[i])
  {
    seq(|keys|, i requires 0 <= i < |keys| => RowFor(t, keys[i]))
  }

  // --- The repair -----------------------------------------------------------------------

  /** The key the section's dict is stored under. */
  function KeyOf(section: Section): string {
    if section.prefixes == [] then "" else section.prefixes[0]
  }

  /** The dict a section starts from. */
  function Existing(section: Section, t: Table): (j: Json)
    ensures j.Dict?
  {
    if KeyOf(section) in t && t[KeyOf(section)].Dict? then t[KeyOf(section)] else EMPTY
  }

  datatype Repaired = Repaired(table: Table, orphans: seq<string>)

  /** One turn of the outer loop. */
  function RepairSection(section: Section, t: Table, keys: seq<string>): Repaired {
    var o := MergeAll(section, Existing(section, t), RowsFor(t, keys));
    if o.orphans == [] then Repaired(t, []) else Repaired(t[KeyOf(section) := o.repaired], o.orphans)
  }

  function RepairSections(query: Query, sections: seq<Section>, t: Table): Repaired
    decreases |sections|
  {
    if sections == [] then Repaired(t, [])
    else
      var before := RepairSections(query, sections[..|sections| - 1], t);
      var last := sections[|sections| - 1];
      var after := RepairSection(last, before.table, query(last, before.table.Keys));
      Repaired(after.table, before.orphans + after.orphans)
  }

  function RepairTable(query: Query, sections: seq<Section>, t: Table): Table {
    var r := RepairSections(query, sections, t);
    r.table - set k <- r.orphans
  }

  // --- One section ------------------------------------------------------------------------

  /** A row left alone once is left alone from then on. */
  lemma StaysLeft(section: Section, j: Json, row: StoredRow, key: string)
    requires j.Dict? && !Merges(section, j, key)
    ensures !Merges(section, Merged(section, j, row), key)
  {
  }

  /** Every row the merge went over is superfluous, or still one to be left alone. */
  lemma {:induction false} MergedOrLeft(section: Section, j: Json, rows: seq<StoredRow>, i: nat)
    requires j.Dict? && i < |rows|
    ensures var o := MergeAll(section, j, rows);
            rows[i].key in o.orphans || !Merges(section, o.repaired, rows[i].key)
    decreases |rows|
  {
    var before, row := MergeAll(section, j, rows[..|rows| - 1]), rows[|rows| - 1];
    if i < |rows| - 1 {
      MergedOrLeft(section, j, rows[..|rows| - 1], i);
      if !Merges(section, before.repaired, rows[i].key) { StaysLeft(section, before.repaired, row, rows[i].key); }
    }
  }

  lemma {:induction false} OrphansAreRows(section: Section, j: Json, rows: seq<StoredRow>, key: string)
    requires j.Dict? && key in MergeAll(section, j, rows).orphans
    ensures Under(section, key) && exists i :: 0 <= i < |rows| && rows[i].key == key
    decreases |rows|
  {
    var before := MergeAll(section, j, rows[..|rows| - 1]);
    if key in before.orphans {
      OrphansAreRows(section, j, rows[..|rows| - 1], key);
      var i :| 0 <= i < |rows| - 1 && rows[..|rows| - 1][i].key == key;
      assert rows[i].key == key;
    } else {
      assert rows[|rows| - 1].key == key;
    }
  }

  lemma {:induction false} NothingToMerge(section: Section, j: Json, rows: seq<StoredRow>)
    requires j.Dict? && forall row <- rows :: !Merges(section, j, row.key)
    ensures MergeAll(section, j, rows) == Outcome(j, [])
    decreases |rows|
  {
    if rows != [] { NothingToMerge(section, j, rows[..|rows| - 1]); }
  }

  lemma {:induction false} NoOrphansNoChange(section: Section, j: Json, rows: seq<StoredRow>)
    requires j.Dict? && MergeAll(section, j, rows).orphans == []
    ensures MergeAll(section, j, rows).repaired == j
    decreases |rows|
  {
    if rows != [] { NoOrphansNoChange(section, j, rows[..|rows| - 1]); }
  }

  /** After its turn, a section's dict is what the merge made of it, and every row under it is to be deleted or is one
      the merge leaves alone. */
  lemma SectionRepaired(section: Section, t: Table, keys: seq<string>, key: string)
    requires Selects(section, t.Keys, keys) && key in t && Under(section, key)
    ensures var r := RepairSection(section, t, keys);
            key in r.orphans || !Merges(section, Existing(section, r.table), key)
  {
    var rows := RowsFor(t, keys);
    var i :| 0 <= i < |keys| && keys[i] == key;
    MergedOrLeft(section, Existing(section, t), rows, i);
    if MergeAll(section, Existing(section, t), rows).orphans == [] {
      NoOrphansNoChange(section, Existing(section, t), rows);
    }
  }

  // --- The whole table -------------------------------------------------------------------------

  /** Sections have keys of their own, and none of these keys lies under a section. */
  ghost predicate Apart(sections: seq<Section>) {
    && (forall i, k :: 0 <= i < k < |sections| ==> KeyOf(sections[i]) != KeyOf(sections[k]))
    && (forall a <- sections, b <- sections :: !Under(a, KeyOf(b)))
  }

  /** No key lies under two sections. */
  ghost predicate Disjoint(sections: seq<Section>) {
    forall i, k, key :: 0 <= i < |sections| && 0 <= k < |sections| && i != k && Under(sections[i], key)
                        ==> !Under(sections[k], key)
  }

  predicate IsSectionKey(sections: seq<Section>, key: string) {
    exists section <- sections :: KeyOf(section) == key
  }

  predicate UnderSome(sections: seq<Section>, key: string) {
    exists section <- sections :: Under(section, key)
  }

  lemma ApartButLast(sections: seq<Section>)
    requires sections != [] && Apart(sections)
    ensures Apart(sections[..|sections| - 1])
    ensures forall section <- sections[..|sections| - 1] :: KeyOf(section) != KeyOf(sections[|sections| - 1])
  {
    var front := sections[..|sections| - 1];
    assert forall section <- front :: section in sections;
  }

  /** Until the rows are deleted, only the sections' own rows change and none goes. */
  lemma {:induction false} OnlySectionsChange(query: Query, sections: seq<Section>, t: Table, key: string)
    requires !IsSectionKey(sections, key)
    ensures var r := RepairSections(query, sections, t);
            (key in r.table <==> key in t) && (key in t ==> r.table[key] == t[key])
    decreases |sections|
  {
    if sections != [] {
      var front, last := sections[..|sections| - 1], sections[|sections| - 1];
      assert !IsSectionKey(front, key) by { assert forall section <- front :: section in sections; }
      OnlySectionsChange(query, front, t, key);
      assert last in sections;
    }
  }

  lemma {:induction false} OrphansAreUnder(query: Query, sections: seq<Section>, t: Table, key: string)
    requires key in RepairSections(query, sections, t).orphans
    ensures UnderSome(sections, key)
    decreases |sections|
  {
    if sections != [] {
      var front, last := sections[..|sections| - 1], sections[|sections| - 1];
      var before := RepairSections(query, front, t);
      if key in before.orphans {
        OrphansAreUnder(query, front, t, key);
        var section :| section in front && Under(section, key);
        assert section in sections;
      } else {
        OrphansAreRows(last, Existing(last, before.table), RowsFor(before.table, query(last, before.table.Keys)), key);
        assert last in sections;
      }
    }
  }

  lemma UnderIsNoSectionKey(sections: seq<Section>, section: Section, key: string)
    requires Apart(sections) && section in sections && Under(section, key)
    ensures !IsSectionKey(sections, key)
  {
  }

  /** What a section's turn leaves under its key, and to be deleted, stays so through the turns of the others. */
  lemma {:induction false} TurnStands(query: Query, sections: seq<Section>, t: Table, m: nat)
    requires Apart(sections) && m < |sections|
    ensures var section := sections[m];
            var turn := TurnOf(query, sections, t, m);
            var r := RepairSections(query, sections, t);
            Existing(section, r.table) == Existing(section, turn.table) && forall k <- turn.orphans :: k in r.orphans
    decreases |sections|
  {
    var front, last := sections[..|sections| - 1], sections[|sections| - 1];
    if m < |front| {
      ApartButLast(sections);
      TurnStands(query, front, t, m);
      assert front[m] == sections[m] && front[..m] == sections[..m];
      assert sections[m] in front;
      NextTurnKeeps(query, sections, t, sections[m]);
    }
  }

  lemma NextTurnKeeps(query: Query, sections: seq<Section>, t: Table, section: Section)
    requires sections != [] && KeyOf(section) != KeyOf(sections[|sections| - 1])
    ensures var before, r := RepairSections(query, sections[..|sections| - 1], t), RepairSections(query, sections, t);
            Existing(section, r.table) == Existing(section, before.table) && before.orphans <= r.orphans
  {
  }

  /** The `m`-th section's turn. */
  function TurnOf(query: Query, sections: seq<Section>, t: Table, m: nat): Repaired
    requires m < |sections|
  {
    var before := RepairSections(query, sections[..m], t).table;
    RepairSection(sections[m], before, query(sections[m], before.Keys))
  }

  /** The turns before the `m`-th leave its section's dict and rows as they were. */
  lemma BeforeTurn(query: Query, sections: seq<Section>, t: Table, m: nat)
    requires Apart(sections) && m < |sections|
    ensures var before := RepairSections(query, sections[..m], t).table;
            && Existing(sections[m], before) == Existing(sections[m], t)
            && forall key :: Under(sections[m], key) ==>
                 (key in before <==> key in t) && (key in t ==> before[key] == t[key])
  {
    var others := sections[..m];
    assert forall other <- others :: other in sections;
    assert sections[m] in sections && !IsSectionKey(others, KeyOf(sections[m]));
    OnlySectionsChange(query, others, t, KeyOf(sections[m]));
    forall key | Under(sections[m], key)
      ensures var before := RepairSections(query, others, t).table;
              (key in before <==> key in t) && (key in t ==> before[key] == t[key])
    {
      UnderIsNoSectionKey(sections, sections[m], key);
      OnlySectionsChange(query, others, t, key);
    }
  }

  /** When all sections had their turn, each row under one is to be deleted or is one that section leaves alone. */
  lemma AllRepaired(query: Query, sections: seq<Section>, t: Table, m: nat, key: string)
    requires Proper(query) && Apart(sections) && m < |sections| && Under(sections[m], key) && key in t
    ensures var r := RepairSections(query, sections, t);
            key in r.orphans || !Merges(sections[m], Existing(sections[m], r.table), key)
  {
    var before := RepairSections(query, sections[..m], t).table;
    BeforeTurn(query, sections, t, m);
    SectionRepaired(sections[m], before, query(sections[m], before.Keys), key);
    TurnStands(query, sections, t, m);
  }

  /** The repair touches nothing but the sections: every other row is there afterwards, as it was. */
  lemma RepairKeepsOthers(query: Query, sections: seq<Section>, t: Table, key: string)
    requires !IsSectionKey(sections, key) && !UnderSome(sections, key)
    ensures var after := RepairTable(query, sections, t);
            (key in after <==> key in t) && (key in t ==> after[key] == t[key])
  {
    OnlySectionsChange(query, sections, t, key);
    if key in RepairSections(query, sections, t).orphans { OrphansAreUnder(query, sections, t, key); }
  }

  /** What is left under a section afterwards is only what its merge leaves alone: a key that cannot be split, or one of
      a connection whose key holds no dict. */
  lemma RepairLeavesNothingToMerge(query: Query, sections: seq<Section>, t: Table, section: Section, key: string)
    requires Proper(query) && Apart(sections) && section in sections && Under(section, key)
    requires key in RepairTable(query, sections, t)
    ensures !Merges(section, Existing(section, RepairTable(query, sections, t)), key)
  {
    UnderIsNoSectionKey(sections, section, key);
    OnlySectionsChange(query, sections, t, key);
    var m :| 0 <= m < |sections| && sections[m] == section;
    AllRepaired(query, sections, t, m, key);
    SectionRowStays(query, sections, t, section);
  }

  /** A section's own row is not among those deleted. */
  lemma SectionRowStays(query: Query, sections: seq<Section>, t: Table, section: Section)
    requires Apart(sections) && section in sections
    ensures Existing(section, RepairTable(query, sections, t))
            == Existing(section, RepairSections(query, sections, t).table)
  {
    var r := RepairSections(query, sections, t);
    if KeyOf(section) in r.orphans { OrphansAreUnder(query, sections, t, KeyOf(section)); }
  }

  /** A second repair changes nothing, in whatever order either of them finds the rows. */
  lemma RepairTwice(query: Query, again: Query, sections: seq<Section>, t: Table)
    requires Proper(query) && Proper(again) && Apart(sections)
    ensures var once := RepairTable(query, sections, t);
            RepairTable(again, sections, once) == once
  {
    var once := RepairTable(query, sections, t);
    forall section, key | section in sections && Under(section, key) && key in once
      ensures !Merges(section, Existing(section, once), key)
    {
      RepairLeavesNothingToMerge(query, sections, t, section, key);
    }
    NothingLeft(again, sections, once);
    assert (set k <- RepairSections(again, sections, once).orphans) == {};
  }

  lemma {:induction false} NothingLeft(query: Query, sections: seq<Section>, t: Table)
    requires Proper(query)
    requires forall section, key :: section in sections && Under(section, key) && key in t
                                    ==> !Merges(section, Existing(section, t), key)
    ensures RepairSections(query, sections, t) == Repaired(t, [])
    decreases |sections|
  {
    if sections != [] {
      var front, last := sections[..|sections| - 1], sections[|sections| - 1];
      assert last in sections && forall section <- front :: section in sections;
      NothingLeft(query, front, t);
      NothingLeftUnder(last, t, query(last, t.Keys));
    }
  }

  lemma NothingLeftUnder(section: Section, t: Table, keys: seq<string>)
    requires Selects(section, t.Keys, keys)
    requires forall key <- t :: Under(section, key) ==> !Merges(section, Existing(section, t), key)
    ensures RepairSection(section, t, keys) == Repaired(t, [])
  {
    var rows := RowsFor(t, keys);
    forall row | row in rows ensures !Merges(section, Existing(section, t), row.key) {
      var i :| 0 <= i < |rows| && rows[i] == row;
      assert row.key == keys[i] && keys[i] in t;
    }
    NothingToMerge(section, Existing(section, t), rows);
  }

  // --- Rows that are left alone -------------------------------------------------------------------

  lemma {:induction false} OrphansHavePaths(section: Section, j: Json, rows: seq<StoredRow>, key: string)
    requires j.Dict? && key in MergeAll(section, j, rows).orphans
    ensures PathOf(section, key).Some?
    decreases |rows|
  {
    var before := MergeAll(section, j, rows[..|rows| - 1]);
    if key in before.orphans { OrphansHavePaths(section, j, rows[..|rows| - 1], key); }
  }

  lemma {:induction false} AllOrphansHavePaths(query: Query, sections: seq<Section>, t: Table, key: string)
    requires key in RepairSections(query, sections, t).orphans
    ensures exists section <- sections :: PathOf(section, key).Some?
    decreases |sections|
  {
    var front, last := sections[..|sections| - 1], sections[|sections| - 1];
    var before := RepairSections(query, front, t);
    if key in before.orphans {
      AllOrphansHavePaths(query, front, t, key);
      var section :| section in front && PathOf(section, key).Some?;
      assert section in sections;
    } else {
      OrphansHavePaths(last, Existing(last, before.table), RowsFor(before.table, query(last, before.table.Keys)), key);
      assert last in sections;
    }
  }

  /** A row that no section can read is there after the repair, as it was. */
  lemma RepairKeepsUnreadable(query: Query, sections: seq<Section>, t: Table, key: string)
    requires !IsSectionKey(sections, key) && forall section <- sections :: PathOf(section, key).None?
    ensures var after := RepairTable(query, sections, t);
            (key in after <==> key in t) && (key in t ==> after[key] == t[key])
  {
    OnlySectionsChange(query, sections, t, key);
    if key in RepairSections(query, sections, t).orphans { AllOrphansHavePaths(query, sections, t, key); }
  }

  /** For a section of API connections, a key below it is unreadable exactly when nothing reads the rest of it. */
  lemma UnreadableIff(section: Section, prefix: string, fragment: string)
    requires section.api && PrefixFree(section.prefixes) && prefix in section.prefixes
    ensures PathOf(section, prefix + ("." + fragment)).None?
            <==> forall f :: !F.Reads(F.API_CONFIG_FIELDS, fragment, f)
  {
    var k :| 0 <= k < |section.prefixes| && section.prefixes[k] == prefix;
    FragmentReadsBack(section.prefixes, k, fragment);
    F.KnownFieldsAreDotFree();
    F.NotSplitIff(F.API_CONFIG_FIELDS, fragment);
  }

  /** A connection whose key holds no dict keeps what it holds, and its rows are not merged. */
  lemma {:induction false} LeafConnectionStays(section: Section, j: Json, rows: seq<StoredRow>, connection: string)
    requires j.Dict? && section.api && connection in j.fields && j.fields[connection].Leaf?
    ensures var o := MergeAll(section, j, rows);
            && connection in o.repaired.fields && o.repaired.fields[connection] == j.fields[connection]
            && forall key <- o.orphans :: PathOf(section, key).Some? ==> PathOf(section, key).value[0] != connection
    decreases |rows|
  {
    if rows != [] { LeafConnectionStays(section, j, rows[..|rows| - 1], connection); }
  }

  /** So they are there after the repair, when they lie under no other section. */
  lemma RepairKeepsLeafConnection(query: Query, sections: seq<Section>, t: Table, m: nat, connection: string,
                                  key: string)
    requires Apart(sections) && m < |sections| && sections[m].api
    requires connection in Existing(sections[m], t).fields && Existing(sections[m], t).fields[connection].Leaf?
    requires PathOf(sections[m], key).Some? && PathOf(sections[m], key).value[0] == connection
    requires Disjoint(sections)
    ensures var after := RepairTable(query, sections, t);
            && Get(Existing(sections[m], after), [connection]) == Get(Existing(sections[m], t), [connection])
            && (key in after <==> key in t) && (key in t ==> after[key] == t[key])
  {
    var before := RepairSections(query, sections[..m], t).table;
    var keys := query(sections[m], before.Keys);
    BeforeTurn(query, sections, t, m);
    LeafConnectionStays(sections[m], Existing(sections[m], before), RowsFor(before, keys), connection);
    TurnIsMerge(sections[m], before, keys);
    TurnStands(query, sections, t, m);
    assert sections[m] in sections;
    SectionRowStays(query, sections, t, sections[m]);
    OneStep(Existing(sections[m], t), connection);
    OneStep(Existing(sections[m], RepairTable(query, sections, t)), connection);
    UnderIsNoSectionKey(sections, sections[m], key);
    OnlySectionsChange(query, sections, t, key);
    OrphanOfItsSection(query, sections, t, m, key);
  }

  /** A row that lies under one section only is merged in that section's turn, if at all. */
  lemma {:induction false} OrphanOfItsSection(query: Query, sections: seq<Section>, t: Table, m: nat, key: string)
    requires Disjoint(sections) && m < |sections| && Under(sections[m], key)
    ensures key in RepairSections(query, sections, t).orphans ==> key in TurnOf(query, sections, t, m).orphans
    decreases |sections|
  {
    var front, last := sections[..|sections| - 1], sections[|sections| - 1];
    var before := RepairSections(query, front, t);
    if m < |front| {
      assert front[m] == sections[m] && front[..m] == sections[..m];
      OrphanOfItsSection(query, front, t, m, key);
      if key in RepairSections(query, sections, t).orphans && key !in before.orphans {
        OrphansAreRows(last, Existing(last, before.table), RowsFor(before.table, query(last, before.table.Keys)), key);
      }
    } else {
      NotMergedBefore(query, sections, t, m, key);
    }
  }

  lemma NotMergedBefore(query: Query, sections: seq<Section>, t: Table, m: nat, key: string)
    requires Disjoint(sections) && m < |sections| && Under(sections[m], key)
    ensures key !in RepairSections(query, sections[..m], t).orphans
  {
    var others := sections[..m];
    forall section | section in others ensures !Under(section, key) {
      var i :| 0 <= i < m && others[i] == section;
      assert sections[i] == section;
    }
    if key in RepairSections(query, others, t).orphans { OrphansAreUnder(query, others, t, key); }
  }

  // --- Flattened dicts come back ----------------------------------------------------------------

  lemma MergeOneMore(section: Section, j: Json, rows: seq<StoredRow>, row: StoredRow)
    requires j.Dict?
    ensures var before := MergeAll(section, j, rows);
            MergeAll(section, j, rows + [row])
            == Outcome(Merged(section, before.repaired, row),
                       before.orphans + if Merges(section, before.repaired, row.key) then [row.key] else [])
  {
    assert (rows + [row])[..|rows + [row]| - 1] == rows;
  }

  /** The merge goes by the rows under the section alone. */
  lemma {:induction false} OthersDoNotMatter(section: Section, j: Json, rows: seq<StoredRow>)
    requires j.Dict?
    ensures MergeAll(section, j, rows) == MergeAll(section, j, OnlyUnder(section, rows))
    decreases |rows|
  {
    if rows != [] {
      var front, last := rows[..|rows| - 1], rows[|rows| - 1];
      assert rows == front + [last];
      OthersDoNotMatter(section, j, front);
      MergeOneMore(section, j, front, last);
      if Under(section, last.key) {
        MergeOneMore(section, j, OnlyUnder(section, front), last);
      } else {
        MergesOnlyUnder(section, MergeAll(section, j, front).repaired, last.key);
        assert OnlyUnder(section, rows) == OnlyUnder(section, front);
      }
    }
  }

  lemma MergesOnlyUnder(section: Section, j: Json, key: string)
    requires j.Dict?
    ensures Merges(section, j, key) ==> Under(section, key)
  {
  }

  function OnlyUnder(section: Section, rows: seq<StoredRow>): (under: seq<StoredRow>)
    ensures forall row :: row in under <==> row in rows && Under(section, row.key)
    decreases |rows|
  {
    if rows == [] then []
    else
      var (front, last) := (rows[..|rows| - 1], rows[|rows| - 1]);
      OnlyUnder(section, front) + if Under(section, last.key) then [last] else []
  }

  /** A leaf of `j` that the table has a row for. */
  ghost predicate IsFlat(section: Section, t: Table, j: Json, flat: Flat) {
    && flat.prefix in section.prefixes && LeafAt(j, flat.path, Leaf(flat.value))
    && RowOf(flat).key in t && t[RowOf(flat).key] == Leaf(flat.value)
  }

  ghost predicate HasFlat(section: Section, t: Table, j: Json, key: string) {
    exists flat :: IsFlat(section, t, j, flat) && RowOf(flat).key == key
  }

  ghost predicate HasRow(section: Section, t: Table, j: Json, path: Path, value: Json) {
    exists flat :: IsFlat(section, t, j, flat) && flat.path == path && Leaf(flat.value) == value
  }

  /** The table holds a section's dict `j` flattened: a row for each leaf, under the key or an alias, no other row under
      the section, and no dict under its own key. */
  ghost predicate HoldsFlattened(section: Section, t: Table, j: Json) {
    && Existing(section, t) == EMPTY
    && (forall key <- t :: Under(section, key) ==> HasFlat(section, t, j, key))
    && (forall path, value :: LeafAt(j, path, value) ==> HasRow(section, t, j, path, value))
  }

  /** The leaves some rows under the section stand for. */
  lemma {:induction false} FlatsOf(section: Section, t: Table, j: Json, rows: seq<StoredRow>) returns (flats: seq<Flat>)
    requires HoldsFlattened(section, t, j)
    requires forall row <- rows :: Under(section, row.key) && row.key in t && row == RowFor(t, row.key)
    ensures forall flat <- flats :: flat.path != [] && IsFlat(section, t, j, flat)
    ensures RowsOf(flats) == rows
    decreases |rows|
  {
    flats := [];
    if rows != [] {
      var front, last := rows[..|rows| - 1], rows[|rows| - 1];
      assert last in rows && HasFlat(section, t, j, last.key);
      var flat :| IsFlat(section, t, j, flat) && RowOf(flat).key == last.key;
      assert RowOf(flat) == last;
      var before := FlatsOf(section, t, j, front);
      flats := before + [flat];
      OneFlatMore(before, flat);
      assert rows == front + [last];
    }
  }

  lemma OneFlatMore(flats: seq<Flat>, flat: Flat)
    requires flat.path != [] && forall f <- flats :: f.path != []
    ensures RowsOf(flats + [flat]) == RowsOf(flats) + [RowOf(flat)]
  {
  }

  /** A row of the table under the section is among those the merge goes over. */
  lemma FoundUnder(section: Section, t: Table, keys: seq<string>, key: string)
    requires Selects(section, t.Keys, keys) && key in t && Under(section, key)
    ensures RowFor(t, key) in OnlyUnder(section, RowsFor(t, keys))
  {
    var i :| 0 <= i < |keys| && keys[i] == key;
    assert RowsFor(t, keys)[i] == RowFor(t, key);
  }

  lemma LeafFound(section: Section, t: Table, keys: seq<string>, j: Json, flats: seq<Flat>, path: Path, value: Json)
    requires PrefixFree(section.prefixes) && j.Dict? && AllReadable(section, j)
    requires HoldsFlattened(section, t, j) && Selects(section, t.Keys, keys) && LeafAt(j, path, value)
    requires forall flat <- flats :: flat.path != [] && IsFlat(section, t, j, flat)
    requires RowsOf(flats) == OnlyUnder(section, RowsFor(t, keys))
    ensures Row(path, value) in PathRows(flats)
  {
    assert HasRow(section, t, j, path, value);
    var flat :| IsFlat(section, t, j, flat) && flat.path == path && Leaf(flat.value) == value;
    forall f | f in flats ensures Legible(section, f) { FlatIsLegible(section, t, j, f); }
    FlatIsLegible(section, t, j, flat);
    FoundUnder(section, t, keys, RowOf(flat).key);
    FlatAmong(section, flats, flat, RowsOf(flats));
  }

  lemma FlatIsLegible(section: Section, t: Table, j: Json, flat: Flat)
    requires PrefixFree(section.prefixes) && AllReadable(section, j) && IsFlat(section, t, j, flat)
    ensures Legible(section, flat) && Under(section, RowOf(flat).key) && RowOf(flat) == RowFor(t, RowOf(flat).key)
  {
    KeyReadsBack(section, flat);
  }

  lemma FlatAmong(section: Section, flats: seq<Flat>, flat: Flat, rows: seq<StoredRow>)
    requires PrefixFree(section.prefixes) && Legible(section, flat)
    requires forall f <- flats :: f.path != [] && Legible(section, f)
    requires rows == RowsOf(flats) && RowOf(flat) in rows
    ensures Row(flat.path, Leaf(flat.value)) in PathRows(flats)
  {
    var i :| 0 <= i < |rows| && rows[i] == RowOf(flat);
    assert flats[i] in flats;
    SameKeySamePath(section, flat, flats[i]);
    assert PathRows(flats)[i] == Row(flat.path, Leaf(flat.value));
  }

  predicate Legible(section: Section, flat: Flat) {
    flat.path != [] && flat.prefix in section.prefixes && Readable(section, flat.path)
  }

  lemma SameKeySamePath(section: Section, a: Flat, b: Flat)
    requires PrefixFree(section.prefixes) && Legible(section, a) && Legible(section, b) && RowOf(a).key == RowOf(b).key
    ensures a.path == b.path
  {
    KeyReadsBack(section, a);
    KeyReadsBack(section, b);
  }

  /** A dict flattened in the table comes back under the section's key exactly when no dict inside it is empty, in
      whatever order the rows are found, and none of its rows is left. */
  lemma SectionRebuilds(section: Section, t: Table, keys: seq<string>, j: Json)
    requires PrefixFree(section.prefixes) && j.Dict? && AllReadable(section, j)
    requires HoldsFlattened(section, t, j) && Selects(section, t.Keys, keys)
    ensures var r := RepairSection(section, t, keys);
            && (Existing(section, r.table) == j <==> NoEmptyInner(j))
            && forall key <- t :: Under(section, key) ==> key in r.orphans
  {
    var flats := MergedFlats(section, t, keys, j);
    RepairRebuilds(section, j, flats);
    OthersDoNotMatter(section, EMPTY, RowsFor(t, keys));
    var o := MergeAll(section, EMPTY, RowsFor(t, keys));
    if o.orphans == [] { NoOrphansNoChange(section, EMPTY, RowsFor(t, keys)); }
    forall key | key in t && Under(section, key) ensures key in o.orphans { KeyFound(section, t, keys, key); }
  }

  lemma KeyFound(section: Section, t: Table, keys: seq<string>, key: string)
    requires Selects(section, t.Keys, keys) && key in t && Under(section, key)
    ensures key in KeysOf(OnlyUnder(section, RowsFor(t, keys)))
  {
    FoundUnder(section, t, keys, key);
    var under := OnlyUnder(section, RowsFor(t, keys));
    var i :| 0 <= i < |under| && under[i] == RowFor(t, key);
    assert KeysOf(under)[i] == key;
  }

  lemma MergedFlats(section: Section, t: Table, keys: seq<string>, j: Json) returns (flats: seq<Flat>)
    requires PrefixFree(section.prefixes) && j.Dict? && AllReadable(section, j)
    requires HoldsFlattened(section, t, j) && Selects(section, t.Keys, keys)
    ensures forall flat <- flats :: flat.path != []
    ensures Flattened(section, j, flats) && RowsOf(flats) == OnlyUnder(section, RowsFor(t, keys))
    ensures forall path, value :: LeafAt(j, path, value) ==> Row(path, value) in PathRows(flats)
  {
    var rows := RowsFor(t, keys);
    forall row | row in OnlyUnder(section, rows) ensures row.key in t && row == RowFor(t, row.key) {
      var i :| 0 <= i < |rows| && rows[i] == row;
      assert row == RowFor(t, keys[i]) && keys[i] in t;
    }
    flats := FlatsOf(section, t, j, OnlyUnder(section, rows));
    forall path, value | LeafAt(j, path, value) ensures Row(path, value) in PathRows(flats) {
      LeafFound(section, t, keys, j, flats, path, value);
    }
  }

  /** A dict flattened in one table is so in another with the same rows under the section. */
  lemma FlattenedStays(section: Section, t: Table, other: Table, j: Json)
    requires PrefixFree(section.prefixes) && AllReadable(section, j) && HoldsFlattened(section, t, j)
    requires Existing(section, other) == Existing(section, t)
    requires forall key :: Under(section, key) ==> (key in other <==> key in t) && (key in t ==> other[key] == t[key])
    ensures HoldsFlattened(section, other, j)
  {
    forall flat | IsFlat(section, t, j, flat) ensures IsFlat(section, other, j, flat) {
      FlatIsLegible(section, t, j, flat);
    }
    forall key | key in other && Under(section, key) ensures HasFlat(section, other, j, key) {
      assert HasFlat(section, t, j, key);
    }
    forall path, value | LeafAt(j, path, value) ensures HasRow(section, other, j, path, value) {
      assert HasRow(section, t, j, path, value);
    }
  }

  lemma SectionsRebuild(query: Query, sections: seq<Section>, t: Table, m: nat, j: Json)
    requires Proper(query) && Apart(sections) && m < |sections|
    requires PrefixFree(sections[m].prefixes) && j.Dict? && AllReadable(sections[m], j)
    requires HoldsFlattened(sections[m], t, j)
    ensures var r := RepairSections(query, sections, t);
            && (Existing(sections[m], r.table) == j <==> NoEmptyInner(j))
            && forall key <- t :: Under(sections[m], key) ==> key in r.orphans
  {
    var before := RepairSections(query, sections[..m], t).table;
    BeforeTurn(query, sections, t, m);
    FlattenedStays(sections[m], t, before, j);
    SectionRebuilds(sections[m], before, query(sections[m], before.Keys), j);
    TurnStands(query, sections, t, m);
  }

  /** A dict stored flattened, under its key or an alias, stands under its key after the repair exactly when no dict
      inside it was empty, and nothing is left of its rows; whatever else the table holds, and in whatever order and
      however often the rows are found. */
  lemma TableRebuilds(query: Query, sections: seq<Section>, t: Table, section: Section, j: Json)
    requires Proper(query) && Apart(sections) && section in sections
    requires PrefixFree(section.prefixes) && j.Dict? && AllReadable(section, j) && HoldsFlattened(section, t, j)
    ensures var after := RepairTable(query, sections, t);
            && (Existing(section, after) == j <==> NoEmptyInner(j))
            && forall key <- after :: !Under(section, key)
  {
    var m :| 0 <= m < |sections| && sections[m] == section;
    SectionsRebuild(query, sections, t, m, j);
    SectionRowStays(query, sections, t, section);
    var after := RepairTable(query, sections, t);
    forall key | key in after ensures !Under(section, key) {
      if Under(section, key) {
        UnderIsNoSectionKey(sections, section, key);
        OnlySectionsChange(query, sections, t, key);
      }
    }
  }

  // --- Beside a dict that is there already -----------------------------------------------------

  predicate Unrelated(p: Path, q: Path) {
    !(p <= q) && !(q <= p)
  }

  /** A row under the section has nothing to do with a path, or is one that holds `value` there. */
  predicate AgreesAt(section: Section, row: StoredRow, path: Path, value: Option<Json>) {
    var own := PathOf(section, row.key);
    own.Some? ==> Unrelated(own.value, path) || (own.value == path && value == Some(row.value))
  }

  /** Where no row leads and from where none goes on, the merge leaves what was there. */
  lemma {:induction false} MergeKeepsPath(section: Section, j: Json, rows: seq<StoredRow>, path: Path)
    requires j.Dict? && forall row <- rows :: AgreesAt(section, row, path, None)
    ensures Get(MergeAll(section, j, rows).repaired, path) == Get(j, path)
    decreases |rows|
  {
    if rows != [] {
      var front, last := rows[..|rows| - 1], rows[|rows| - 1];
      MergeKeepsPath(section, j, front, path);
      assert AgreesAt(section, last, path, None);
      var before := MergeAll(section, j, front).repaired;
      if Merges(section, before, last.key) {
        AssignKeepsOthers(before, PathOf(section, last.key).value, last.value, path);
      }
    }
  }

  /** Where a merged row leads, its value is, unless another row is for the same place. */
  lemma {:induction false} MergeHolds(section: Section, j: Json, rows: seq<StoredRow>, key: string, path: Path,
                                      value: Json)
    requires j.Dict? && PathOf(section, key) == Some(path)
    requires forall row <- rows :: AgreesAt(section, row, path, Some(value))
    ensures var o := MergeAll(section, j, rows);
            key in o.orphans ==> Get(o.repaired, path) == Some(value)
    decreases |rows|
  {
    if rows != [] {
      var front, last := rows[..|rows| - 1], rows[|rows| - 1];
      MergeHolds(section, j, front, key, path, value);
      assert AgreesAt(section, last, path, Some(value));
      var before := MergeAll(section, j, front).repaired;
      if Merges(section, before, last.key) {
        var own := PathOf(section, last.key).value;
        if own == path {
          AssignedIsThere(before, own, last.value, []);
          assert own + [] == own;
        } else {
          AssignKeepsOthers(before, own, last.value, path);
        }
      }
    }
  }

  /** The rows found are those of the table, so they agree when the table's do. */
  lemma FoundAgree(section: Section, t: Table, before: Table, keys: seq<string>, path: Path, value: Option<Json>)
    requires Selects(section, before.Keys, keys)
    requires forall key :: Under(section, key) ==> (key in before <==> key in t) && (key in t ==> before[key] == t[key])
    requires forall key <- t :: Under(section, key) ==> AgreesAt(section, RowFor(t, key), path, value)
    ensures forall row <- RowsFor(before, keys) :: AgreesAt(section, row, path, value)
  {
    var rows := RowsFor(before, keys);
    forall row | row in rows ensures AgreesAt(section, row, path, value) {
      var i :| 0 <= i < |rows| && rows[i] == row;
      assert row == RowFor(before, keys[i]) && keys[i] in before;
      if Under(section, keys[i]) { assert row == RowFor(t, keys[i]); }
    }
  }

  lemma TurnIsMerge(section: Section, t: Table, keys: seq<string>)
    ensures var r, o := RepairSection(section, t, keys), MergeAll(section, Existing(section, t), RowsFor(t, keys));
            Existing(section, r.table) == o.repaired && r.orphans == o.orphans
  {
    if MergeAll(section, Existing(section, t), RowsFor(t, keys)).orphans == [] {
      NoOrphansNoChange(section, Existing(section, t), RowsFor(t, keys));
    }
  }

  /** Whatever dict there was, the repair keeps each path in it that no row leads to or goes on from. */
  lemma RepairKeepsPath(query: Query, sections: seq<Section>, t: Table, section: Section, path: Path)
    requires Proper(query) && Apart(sections) && section in sections
    requires forall key <- t :: Under(section, key) ==> AgreesAt(section, RowFor(t, key), path, None)
    ensures Get(Existing(section, RepairTable(query, sections, t)), path) == Get(Existing(section, t), path)
  {
    var m :| 0 <= m < |sections| && sections[m] == section;
    var before := RepairSections(query, sections[..m], t).table;
    var keys := query(section, before.Keys);
    BeforeTurn(query, sections, t, m);
    FoundAgree(section, t, before, keys, path, None);
    MergeKeepsPath(section, Existing(section, t), RowsFor(before, keys), path);
    TurnIsMerge(section, before, keys);
    TurnStands(query, sections, t, m);
    SectionRowStays(query, sections, t, section);
  }

  /** And each row that section does not leave alone has its value where it leads, unless another row is for the same
      place. */
  lemma RepairHoldsRow(query: Query, sections: seq<Section>, t: Table, section: Section, key: string, path: Path)
    requires Proper(query) && Apart(sections) && section in sections
    requires key in t && PathOf(section, key) == Some(path)
    requires forall k <- t :: Under(section, k) ==> AgreesAt(section, RowFor(t, k), path, Some(t[key]))
    ensures var j := Existing(section, RepairTable(query, sections, t));
            Merges(section, j, key) ==> Get(j, path) == Some(t[key])
  {
    var m :| 0 <= m < |sections| && sections[m] == section;
    TurnHoldsRow(query, sections, t, m, key, path);
    TurnStands(query, sections, t, m);
    SectionRowStays(query, sections, t, section);
  }

  lemma TurnHoldsRow(query: Query, sections: seq<Section>, t: Table, m: nat, key: string, path: Path)
    requires Proper(query) && Apart(sections) && m < |sections|
    requires key in t && PathOf(sections[m], key) == Some(path)
    requires forall k <- t :: Under(sections[m], k) ==> AgreesAt(sections[m], RowFor(t, k), path, Some(t[key]))
    ensures var j := Existing(sections[m], TurnOf(query, sections, t, m).table);
            Merges(sections[m], j, key) ==> Get(j, path) == Some(t[key])
  {
    var section := sections[m];
    var before := RepairSections(query, sections[..m], t).table;
    var keys := query(section, before.Keys);
    BeforeTurn(query, sections, t, m);
    FoundAgree(section, t, before, keys, path, Some(t[key]));
    MergeHolds(section, Existing(section, t), RowsFor(before, keys), key, path, t[key]);
    TurnIsMerge(section, before, keys);
    SectionRepaired(section, before, keys, key);
  }
}
