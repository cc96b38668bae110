/** The per-language toggle list of the CLOC data handler: how the import
    builds it from the distinct languages of the results table, which lines of
    the imported file are handed to the database, and how a menu selection
    ("ALL", "NONE" or one language) changes it. */
module MetaData {
  import Sequences

  /** One toggle entry; the handler keeps it as a variant map with the keys
      "Key Field", "Key Value" and "Active". */
  datatype Entry = Entry(keyField: string, keyValue: string, active: bool)

  /** Selector carried by the "All Languages" menu action. */
  const AllKey: string := "ALL"
  /** Selector carried by the "No Languages" menu action. */
  const NoneKey: string := "NONE"
  /** Aggregate row of the results table that never gets an entry. */
  const SumLanguage: string := "SUM"
  /** The null character that marks a line the import skips. */
  const NullChar: char := 0 as char

  function KeyValues(es: seq<Entry>): (r: seq<string>)
    ensures |r| == |es|
    ensures forall i :: 0 <= i < |es| ==> r[i] == es[i].keyValue
  {
    seq(|es|, i requires 0 <= i < |es| => es[i].keyValue)
  }

  // ---------------------------------------------------------------------
  // Import

  /** A line of the imported file is executed as a statement exactly when it
      is non-empty and does not start with the null character. */
  predicate IsStatement(line: string)
  {
    line != [] && line[0] != NullChar
  }

  /** The statements the import executes, in file order. */
  function ImportStatements(lines: seq<string>): (r: seq<string>)
    ensures forall i :: 0 <= i < |r| ==> r[i] != [] && r[i][0] != NullChar
    ensures forall l :: multiset(r)[l] == if IsStatement(l) then multiset(lines)[l] else 0
    ensures Sequences.IsSubsequence(r, lines)
  {
    Sequences.Filter(lines, IsStatement)
  }

  predicate IsLanguage(name: string)
  {
    name != SumLanguage
  }

  function NewEntry(name: string): Entry
  {
    Entry(name, name, false)
  }

  /** The entries built from the distinct languages of the results table. */
  function BuildMetaData(languages: seq<string>): (r: seq<Entry>)
    ensures forall i :: 0 <= i < |r| ==>
      r[i].keyField == r[i].keyValue && !r[i].active && r[i].keyValue != SumLanguage
    ensures forall n :: multiset(KeyValues(r))[n] == if n == SumLanguage then 0 else multiset(languages)[n]
    ensures Sequences.IsSubsequence(KeyValues(r), languages)
  {
    var names := Sequences.Filter(languages, IsLanguage);
    var r := seq(|names|, i requires 0 <= i < |names| => NewEntry(names[i]));
    assert KeyValues(r) == names;
    r
  }

  /** Each language is listed once: distinct names give distinct entries. */
  lemma BuildMetaDataDistinct(languages: seq<string>)
    requires forall i, j :: 0 <= i < j < |languages| ==> languages[i] != languages[j]
    ensures forall i, j :: 0 <= i < j < |BuildMetaData(languages)| ==>
      BuildMetaData(languages)[i].keyValue != BuildMetaData(languages)[j].keyValue
  {
    var ks := KeyValues(BuildMetaData(languages));
    Sequences.SubsequenceKeepsDistinct(ks, languages);
  }

  /** Every entry names one of the languages. */
  lemma KeyValuesInLanguages(languages: seq<string>)
    ensures forall i :: 0 <= i < |BuildMetaData(languages)| ==> BuildMetaData(languages)[i].keyValue in languages
  {
    var ks := KeyValues(BuildMetaData(languages));
    Sequences.SubsequenceElements(ks, languages);
    assert forall i :: 0 <= i < |ks| ==> ks[i] in ks;
  }

  /** A language name has an entry exactly when it occurs among the languages and is not "SUM". */
  lemma BuildMetaDataMembership(languages: seq<string>, n: string)
    ensures n in KeyValues(BuildMetaData(languages)) <==> n in languages && n != SumLanguage
  {
    var ks := KeyValues(BuildMetaData(languages));
    assert multiset(ks)[n] == if n == SumLanguage then 0 else multiset(languages)[n];
    assert n in ks <==> multiset(ks)[n] > 0;
    assert n in languages <==> multiset(languages)[n] > 0;
  }

  // ---------------------------------------------------------------------
  // Menu selection

  /** The effect of a selection on one entry. */
  function Select(e: Entry, key: string): Entry
  {
    if key == AllKey then e.(active := true)
    else if key == NoneKey then e.(active := false)
    else if e.keyValue == key then e.(active := !e.active)
    else e
  }

  /** The entry list after the menu action carrying `key` was chosen. */
  function ApplySelection(es: seq<Entry>, key: string): (r: seq<Entry>)
    ensures |r| == |es|
    ensures forall i :: 0 <= i < |es| ==>
      r[i].keyField == es[i].keyField && r[i].keyValue == es[i].keyValue
    ensures key == AllKey ==> forall i :: 0 <= i < |r| ==> r[i].active
    ensures key == NoneKey ==> forall i :: 0 <= i < |r| ==> !r[i].active
    ensures key != AllKey && key != NoneKey ==>
      forall i :: 0 <= i < |es| ==>
        if es[i].keyValue == key then r[i].active == !es[i].active else r[i] == es[i]
    decreases |es|
  {
    if es == [] then []
    else
      var rest := ApplySelection(es[1..], key);
      var r := [Select(es[0], key)] + rest;
      assert forall i :: 1 <= i < |es| ==> r[i] == rest[i - 1] && es[i] == es[1..][i - 1];
      r
  }

  /** Choosing the same language twice restores the list. */
  lemma SelectionInvolution(es: seq<Entry>, key: string)
    requires key != AllKey && key != NoneKey
    ensures ApplySelection(ApplySelection(es, key), key) == es
  {
    var once := ApplySelection(es, key);
    var twice := ApplySelection(once, key);
    assert |twice| == |es|;
    forall i | 0 <= i < |es| ensures twice[i] == es[i] {
      if es[i].keyValue == key {
        assert once[i].keyValue == key;
      }
    }
  }

  /** "ALL" and "NONE" are idempotent: the second identical choice changes nothing. */
  lemma SelectAllNoneIdempotent(es: seq<Entry>, key: string)
    requires key == AllKey || key == NoneKey
    ensures ApplySelection(ApplySelection(es, key), key) == ApplySelection(es, key)
  {
    var once := ApplySelection(es, key);
    var twice := ApplySelection(once, key);
    forall i | 0 <= i < |es| ensures twice[i] == once[i] {
    }
  }

  /** Toggling two languages gives the same list in either order. */
  lemma TogglesCommute(es: seq<Entry>, a: string, b: string)
    requires a != AllKey && a != NoneKey && b != AllKey && b != NoneKey
    ensures ApplySelection(ApplySelection(es, a), b) == ApplySelection(ApplySelection(es, b), a)
  {
    var ab := ApplySelection(ApplySelection(es, a), b);
    var ba := ApplySelection(ApplySelection(es, b), a);
    forall i | 0 <= i < |es| ensures ab[i] == ba[i] {
      assert ApplySelection(es, a)[i].keyValue == es[i].keyValue;
      assert ApplySelection(es, b)[i].keyValue == es[i].keyValue;
    }
  }

  /** Choosing a newly built language's entry activates exactly that language. */
  lemma SelectAfterImport(languages: seq<string>, n: string)
    requires forall i, j :: 0 <= i < j < |languages| ==> languages[i] != languages[j]
    requires n in languages && n != SumLanguage && n != AllKey && n != NoneKey
    ensures forall e :: e in ApplySelection(BuildMetaData(languages), n) ==> (e.active <==> e.keyValue == n)
    ensures exists e :: e in ApplySelection(BuildMetaData(languages), n) && e.keyValue == n
  {
    var es := BuildMetaData(languages);
    BuildMetaDataMembership(languages, n);
    var r := ApplySelection(es, n);
    var k :| 0 <= k < |es| && KeyValues(es)[k] == n;
    assert r[k] in r && r[k].keyValue == n;
  }
}
