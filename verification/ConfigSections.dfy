/** The sections of the config there are (models/config.py, DICT_CONFIG_KEY_ALIASES): their keys and aliases keep clear
    of each other, as the theorems about the repair ask. */
module ConfigSections {
  import opened Text
  import opened ConfigRepair
  import opened ConfigTable

  /** A few characters of a section's key, which with one more tell the sections apart. */
  function Mark(key: string): string
    requires |key| > 15
  {
    [key[0], key[1], key[4], key[15]]
  }

  function AliasMark(alias: string): string
    requires |alias| > 8
  {
    [alias[0], alias[1], alias[2], alias[8]]
  }

  const MARKS := [
    "opai", "olmi", "ramm", "rada", "wesu", "imen", "imen", "auoi", "molm", "molp", "ta.m", "uier", "us.s"
  ]

  const ALIAS_MARKS := [
    "OPEP", "OLLP", "MINA", "DOCP", "LINE", "AUTC", "IMAP", "AUDS", "DEFM", "DEFM", "TASE", "DEFI", "USEM"
  ]

  /** A section as the table of them writes it: a key in lower case and one alias in upper case. */
  predicate Written(section: Section, mark: string, aliasMark: string) {
    && |section.prefixes| == 2
    && |section.prefixes[0]| > 15 && Lower(section.prefixes[0]) && Mark(section.prefixes[0]) == mark
    && |section.prefixes[1]| > 8 && !Lower(section.prefixes[1]) && AliasMark(section.prefixes[1]) == aliasMark
  }

  predicate Lower(text: string) {
    text != "" && 'a' <= text[0] <= 'z'
  }

  predicate WrittenAt(i: nat)
    requires i < |DICT_SECTIONS|
  {
    Written(DICT_SECTIONS[i], MARKS[i], ALIAS_MARKS[i])
  }

  lemma FirstSections()
    ensures forall i :: 0 <= i < 3 ==> WrittenAt(i)
  {
  }

  lemma NextSections()
    ensures forall i :: 3 <= i < 5 ==> WrittenAt(i)
  {
  }

  lemma ImageSections()
    ensures WrittenAt(5) && WrittenAt(6)
    ensures |KeyOf(DICT_SECTIONS[5])| > 17 && KeyOf(DICT_SECTIONS[5])[17] == 'a'
    ensures |KeyOf(DICT_SECTIONS[6])| > 17 && KeyOf(DICT_SECTIONS[6])[17] == 'o'
  {
    assert Mark(DICT_SECTIONS[5].prefixes[0]) == "imen";
    assert Mark(DICT_SECTIONS[6].prefixes[0]) == "imen";
  }

  lemma ModelSections()
    ensures forall i :: 7 <= i < 10 ==> WrittenAt(i)
    ensures |DICT_SECTIONS[8].prefixes[1]| > 14 && DICT_SECTIONS[8].prefixes[1][14] == 'M'
    ensures |DICT_SECTIONS[9].prefixes[1]| > 14 && DICT_SECTIONS[9].prefixes[1][14] == 'P'
  {
  }

  lemma LastSections()
    ensures forall i :: 10 <= i < 13 ==> WrittenAt(i)
  {
  }

  /** Neither of two texts starts the other. */
  predicate Diverge(a: string, b: string) {
    !(a <= b) && !(b <= a)
  }

  lemma AllDiverge(i: nat, k: nat)
    requires i < |DICT_SECTIONS| && k < |DICT_SECTIONS| && i != k
    ensures |DICT_SECTIONS[i].prefixes| == |DICT_SECTIONS[k].prefixes| == 2
    ensures Diverge(DICT_SECTIONS[i].prefixes[0], DICT_SECTIONS[k].prefixes[0])
    ensures Diverge(DICT_SECTIONS[i].prefixes[1], DICT_SECTIONS[k].prefixes[1])
    ensures Diverge(DICT_SECTIONS[i].prefixes[0], DICT_SECTIONS[k].prefixes[1])
    ensures Diverge(DICT_SECTIONS[i].prefixes[1], DICT_SECTIONS[k].prefixes[0])
  {
    FirstSections();
    NextSections();
    ImageSections();
    ModelSections();
    LastSections();
    assert WrittenAt(i) && WrittenAt(k);
    MarksDiffer(i, k);
  }

  lemma MarksDiffer(i: nat, k: nat)
    requires i < |MARKS| && k < |MARKS| && i != k
    ensures MARKS[i] != MARKS[k] || (i == 5 && k == 6) || (i == 6 && k == 5)
    ensures ALIAS_MARKS[i] != ALIAS_MARKS[k] || (i == 8 && k == 9) || (i == 9 && k == 8)
  {
  }

  lemma AliasDiverges(i: nat)
    requires i < |DICT_SECTIONS|
    ensures |DICT_SECTIONS[i].prefixes| == 2 && Diverge(DICT_SECTIONS[i].prefixes[0], DICT_SECTIONS[i].prefixes[1])
  {
    FirstSections();
    NextSections();
    ImageSections();
    ModelSections();
    LastSections();
    assert WrittenAt(i);
  }

  /** What lies under a section starts with one of its prefixes and a dot. */
  lemma UnderStarts(section: Section, key: string)
    requires |section.prefixes| == 2
    ensures Under(section, key) <==> section.prefixes[0] + "." <= key || section.prefixes[1] + "." <= key
  {
    assert section.prefixes[1..] == [section.prefixes[1]] && [section.prefixes[1]][1..] == [];
    assert FragmentOf([], key) == None;
    assert FragmentOf([section.prefixes[1]], key).Some? <==> section.prefixes[1] + "." <= key;
  }

  lemma StartsOne(a: string, b: string, key: string)
    requires Diverge(a, b)
    ensures !(a + "." <= key && b + "." <= key)
  {
    assert a + "." <= key ==> a == key[..|a|];
    assert b + "." <= key ==> b == key[..|b|];
  }

  lemma SectionsAreApart()
    ensures Apart(DICT_SECTIONS) && Disjoint(DICT_SECTIONS)
  {
    forall i, k | 0 <= i < |DICT_SECTIONS| && 0 <= k < |DICT_SECTIONS|
      ensures !Under(DICT_SECTIONS[i], KeyOf(DICT_SECTIONS[k]))
      ensures i != k ==> KeyOf(DICT_SECTIONS[i]) != KeyOf(DICT_SECTIONS[k])
    {
      NotUnder(i, k);
    }
    forall i, k, key | 0 <= i < |DICT_SECTIONS| && 0 <= k < |DICT_SECTIONS| && i != k && Under(DICT_SECTIONS[i], key)
      ensures !Under(DICT_SECTIONS[k], key)
    {
      UnderOne(i, k, key);
    }
  }

  lemma NotUnder(i: nat, k: nat)
    requires i < |DICT_SECTIONS| && k < |DICT_SECTIONS|
    ensures !Under(DICT_SECTIONS[i], KeyOf(DICT_SECTIONS[k]))
    ensures i != k ==> KeyOf(DICT_SECTIONS[i]) != KeyOf(DICT_SECTIONS[k])
  {
    AliasDiverges(i);
    if i != k { AllDiverge(i, k); }
    UnderStarts(DICT_SECTIONS[i], KeyOf(DICT_SECTIONS[k]));
  }

  lemma UnderOne(i: nat, k: nat, key: string)
    requires i < |DICT_SECTIONS| && k < |DICT_SECTIONS| && i != k
    ensures !(Under(DICT_SECTIONS[i], key) && Under(DICT_SECTIONS[k], key))
  {
    AllDiverge(i, k);
    UnderStarts(DICT_SECTIONS[i], key);
    UnderStarts(DICT_SECTIONS[k], key);
    forall m, n | 0 <= m < 2 && 0 <= n < 2
      ensures !(DICT_SECTIONS[i].prefixes[m] + "." <= key && DICT_SECTIONS[k].prefixes[n] + "." <= key)
    {
      StartsOne(DICT_SECTIONS[i].prefixes[m], DICT_SECTIONS[k].prefixes[n], key);
    }
  }
}
