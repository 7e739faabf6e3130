/** The `tracked` object of monitor.js: a JavaScript object from product URL
    to tracking record, kept in key-insertion order as JavaScript objects keep
    string keys that are not array indices, and its loading from the data
    file. */
module TrackingStore {
  import opened Wrappers
  import opened JsText

  type Url = string

  /** `{ issueNumber, initialPrice, lastChecked }`; the timestamp is opaque. */
  datatype Record = Record(issueNumber: int, initialPrice: real, lastChecked: string)

  /** A snapshot of `tracked`: its keys in iteration order and its records. */
  datatype Snapshot = Snapshot(keys: seq<Url>, records: map<Url, Record>)

  /** Each key once, and exactly the keys that have a record. */
  ghost predicate Valid(s: Snapshot) {
    && (forall i, j :: 0 <= i < j < |s.keys| ==> s.keys[i] != s.keys[j])
    && (forall k :: k in s.records <==> k in s.keys)
  }

  const Empty := Snapshot([], map[])

  /** `tracked[url] = rec`: a new key goes last, an existing key keeps its
      place and loses its old record. */
  function Put(s: Snapshot, url: Url, rec: Record): (r: Snapshot)
    requires Valid(s)
    ensures Valid(r)
    ensures r.records.Keys == s.records.Keys + {url}
    ensures r.records[url] == rec
    ensures forall k :: k in s.records && k != url ==> r.records[k] == s.records[k]
    ensures url in s.records ==> r.keys == s.keys
    ensures url !in s.records ==> r.keys == s.keys + [url]
  {
    Snapshot(if url in s.records then s.keys else s.keys + [url], s.records[url := rec])
  }

  /** `s` holds exactly the keys of `entries`, each with its last value. */
  ghost predicate Holds(s: Snapshot, entries: seq<(Url, Record)>) {
    && (forall k :: k in s.records <==> exists i :: 0 <= i < |entries| && entries[i].0 == k)
    && (forall i :: 0 <= i < |entries| && (forall j :: i < j < |entries| ==> entries[j].0 != entries[i].0) ==>
          entries[i].0 in s.records && s.records[entries[i].0] == entries[i].1)
  }

  /** The keys of `s` come in the order in which they first occur among the
      entries: for two keys, the earlier one occurs before the later one
      first does. */
  ghost predicate FirstOccurrenceOrder(s: Snapshot, entries: seq<(Url, Record)>) {
    forall i, j :: 0 <= i < j < |s.keys| ==>
      exists p :: 0 <= p < |entries| && entries[p].0 == s.keys[i] &&
        forall q :: 0 <= q <= p ==> entries[q].0 != s.keys[j]
  }

  /** The object `JSON.parse` builds from the members of a JSON object in
      document order: a repeated key keeps its first place and its last value
      (for keys that are not array indices, which JavaScript lists first). */
  function FromEntries(entries: seq<(Url, Record)>): (r: Snapshot)
    ensures Valid(r) && Holds(r, entries)
    ensures FirstOccurrenceOrder(r, entries)
  {
    if entries == [] then Empty
    else
      var n := |entries| - 1;
      var rest := FromEntries(entries[..n]);
      PutLastEntry(entries, rest);
      PutLastEntryOrder(entries, rest);
      Put(rest, entries[n].0, entries[n].1)
  }

  /** Adding the last entry keeps the first-occurrence order: an existing key
      keeps its place, and a new key occurs nowhere before it. */
  lemma PutLastEntryOrder(entries: seq<(Url, Record)>, rest: Snapshot)
    requires |entries| > 0 && Valid(rest)
    requires Holds(rest, entries[..|entries| - 1]) && FirstOccurrenceOrder(rest, entries[..|entries| - 1])
    ensures FirstOccurrenceOrder(Put(rest, entries[|entries| - 1].0, entries[|entries| - 1].1), entries)
  {
    var n := |entries| - 1;
    var r := Put(rest, entries[n].0, entries[n].1);
    forall i, j | 0 <= i < j < |r.keys|
      ensures exists p :: 0 <= p < |entries| && entries[p].0 == r.keys[i] &&
                forall q :: 0 <= q <= p ==> entries[q].0 != r.keys[j]
    {
      if j < |rest.keys| {
        OrderOfOldKeys(entries, rest, i, j);
      } else {
        OrderOfNewKey(entries, rest, i);
      }
    }
  }

  /** Two keys already present keep their first occurrences. */
  lemma OrderOfOldKeys(entries: seq<(Url, Record)>, rest: Snapshot, i: nat, j: nat)
    requires |entries| > 0 && FirstOccurrenceOrder(rest, entries[..|entries| - 1])
    requires i < j < |rest.keys|
    ensures exists p :: 0 <= p < |entries| && entries[p].0 == rest.keys[i] &&
              forall q :: 0 <= q <= p ==> entries[q].0 != rest.keys[j]
  {
    var prefix := entries[..|entries| - 1];
    assert FirstOccurrenceOrder(rest, prefix);
    assert exists p :: 0 <= p < |prefix| && prefix[p].0 == rest.keys[i] &&
             forall q :: 0 <= q <= p ==> prefix[q].0 != rest.keys[j];
    var p :| 0 <= p < |prefix| && prefix[p].0 == rest.keys[i] &&
             forall q :: 0 <= q <= p ==> prefix[q].0 != rest.keys[j];
    assert entries[p] == prefix[p];
    forall q | 0 <= q <= p ensures entries[q].0 != rest.keys[j] {
      assert entries[q] == prefix[q];
    }
  }

  /** A key the last entry adds occurs after the first occurrence of every
      key already present. */
  lemma OrderOfNewKey(entries: seq<(Url, Record)>, rest: Snapshot, i: nat)
    requires |entries| > 0 && Valid(rest) && Holds(rest, entries[..|entries| - 1])
    requires entries[|entries| - 1].0 !in rest.records && i < |rest.keys|
    ensures exists p :: 0 <= p < |entries| && entries[p].0 == rest.keys[i] &&
              forall q :: 0 <= q <= p ==> entries[q].0 != entries[|entries| - 1].0
  {
    var n := |entries| - 1;
    var prefix := entries[..n];
    var k := entries[n].0;
    assert rest.keys[i] in rest.records;
    var p :| 0 <= p < n && prefix[p].0 == rest.keys[i];
    assert entries[p] == prefix[p];
    forall q | 0 <= q <= p ensures entries[q].0 != k {
      assert entries[q] == prefix[q];
    }
  }

  lemma PutLastEntry(entries: seq<(Url, Record)>, rest: Snapshot)
    requires |entries| > 0 && Valid(rest) && Holds(rest, entries[..|entries| - 1])
    ensures Holds(Put(rest, entries[|entries| - 1].0, entries[|entries| - 1].1), entries)
  {
    PutLastEntryKeys(entries, rest);
    PutLastEntryValues(entries, rest);
  }

  lemma PutLastEntryKeys(entries: seq<(Url, Record)>, rest: Snapshot)
    requires |entries| > 0 && Valid(rest) && Holds(rest, entries[..|entries| - 1])
    ensures var r := Put(rest, entries[|entries| - 1].0, entries[|entries| - 1].1);
            forall k :: k in r.records <==> exists i :: 0 <= i < |entries| && entries[i].0 == k
  {
    var r := Put(rest, entries[|entries| - 1].0, entries[|entries| - 1].1);
    forall k ensures k in r.records <==> exists i :: 0 <= i < |entries| && entries[i].0 == k {
      LastEntryKey(entries, k);
    }
  }

  /** A key occurs among the entries when it is the last one's or occurs
      before it. */
  lemma LastEntryKey(entries: seq<(Url, Record)>, k: Url)
    requires |entries| > 0
    ensures var n := |entries| - 1;
            (exists i :: 0 <= i < |entries| && entries[i].0 == k)
            <==> (k == entries[n].0 || exists i :: 0 <= i < n && entries[..n][i].0 == k)
  {
    var n := |entries| - 1;
    if exists i :: 0 <= i < n && entries[..n][i].0 == k {
      var i :| 0 <= i < n && entries[..n][i].0 == k;
      assert entries[i].0 == k;
    }
    if exists i :: 0 <= i < |entries| && entries[i].0 == k {
      var i :| 0 <= i < |entries| && entries[i].0 == k;
      if i < n {
        assert entries[..n][i].0 == k;
      }
    }
  }

  lemma PutLastEntryValues(entries: seq<(Url, Record)>, rest: Snapshot)
    requires |entries| > 0 && Valid(rest) && Holds(rest, entries[..|entries| - 1])
    ensures var r := Put(rest, entries[|entries| - 1].0, entries[|entries| - 1].1);
            forall i :: 0 <= i < |entries| && (forall j :: i < j < |entries| ==> entries[j].0 != entries[i].0) ==>
              entries[i].0 in r.records && r.records[entries[i].0] == entries[i].1
  {
    var n := |entries| - 1;
    var prefix := entries[..n];
    var r := Put(rest, entries[n].0, entries[n].1);
    forall i | 0 <= i < n && (forall j :: i < j < |entries| ==> entries[j].0 != entries[i].0)
      ensures entries[i].0 in r.records && r.records[entries[i].0] == entries[i].1
    {
      assert prefix[i] == entries[i];
      assert forall j :: i < j < n ==> prefix[j].0 != prefix[i].0;
    }
  }

  /** The data file as the program finds it at start-up: missing, or present
      with some content and the outcome of `JSON.parse` on that content once
      trimmed (`None` when it throws). */
  datatype StoredFile = Missing | Present(content: string, parsed: Option<seq<(Url, Record)>>)

  /** The start-up load of `tracked`: a missing file, blank content and
      content that does not parse all give the empty store. */
  function Load(file: StoredFile): (r: Snapshot)
    ensures Valid(r)
    ensures file.Missing? ==> r == Empty
    ensures file.Present? && (forall k :: 0 <= k < |file.content| ==> IsWhitespace(file.content[k])) ==> r == Empty
    ensures file.Present? && file.parsed.None? ==> r == Empty
    ensures file.Present? && Trim(file.content) != [] && file.parsed.Some? ==> r == FromEntries(file.parsed.value)
  {
    TrimEmptyIffBlank(if file.Present? then file.content else "");
    match file
    case Missing => Empty
    case Present(content, parsed) =>
      if Trim(content) == [] then Empty
      else match parsed
        case None => Empty
        case Some(entries) => FromEntries(entries)
  }
}
