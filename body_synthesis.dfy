/** What the `body` property's fold guarantees: which names end up in the
    dict, with which values, when the payload is absent, and when the order
    of the `{name, value}` list does not matter. */
module BodySynthesis {
  import opened Values
  import opened AgentsForBedrockHandler

  /** Entry `i` is the last one written under its name. */
  ghost predicate LastOccurrence(entries: seq<(Key, Json)>, i: int) {
    0 <= i < |entries| && forall j :: i < j < |entries| ==> entries[j].0 != entries[i].0
  }

  /** No name is written twice. */
  ghost predicate DistinctNames(entries: seq<(Key, Json)>) {
    forall i, j :: 0 <= i < j < |entries| ==> entries[i].0 != entries[j].0
  }

  /** The loop succeeds exactly when every element is a well-formed
      `{name, value}` dict, and then writes one entry per element, in order. */
  lemma {:induction false} EntriesPointwise(items: seq<Json>)
    ensures Entries(items).Ok? <==> forall i :: 0 <= i < |items| ==> Entry(items[i]).Ok?
    ensures Entries(items).Ok? ==>
      && |Entries(items).value| == |items|
      && forall i :: 0 <= i < |items| ==> Entries(items).value[i] == Entry(items[i]).value
    decreases |items|
  {
    if items != [] {
      var init := items[..|items| - 1];
      EntriesPointwise(init);
      assert forall i :: 0 <= i < |init| ==> init[i] == items[i];
    }
  }

  /** Every name written is a key of the dict. */
  lemma {:induction false} WrittenNameIsKey(entries: seq<(Key, Json)>, i: int)
    requires 0 <= i < |entries|
    ensures entries[i].0 in Collect(entries)
    decreases |entries|
  {
    var n := |entries| - 1;
    if i < n {
      WrittenNameIsKey(entries[..n], i);
    }
  }

  /** Each key of the dict was written, and has a last entry. */
  lemma {:induction false} KeyHasLastEntry(entries: seq<(Key, Json)>, k: Key) returns (i: int)
    requires k in Collect(entries)
    ensures LastOccurrence(entries, i) && entries[i].0 == k
    decreases |entries|
  {
    var n := |entries| - 1;
    if k == entries[n].0 {
      i := n;
    } else {
      var init := entries[..n];
      i := KeyHasLastEntry(init, k);
    }
  }

  /** The last entry under a name gives the name's value. */
  lemma {:induction false} LastEntryGivesValue(entries: seq<(Key, Json)>, i: int)
    requires LastOccurrence(entries, i)
    ensures entries[i].0 in Collect(entries) && Collect(entries)[entries[i].0] == entries[i].1
    decreases |entries|
  {
    var n := |entries| - 1;
    if i < n {
      var init := entries[..n];
      assert LastOccurrence(init, i);
      LastEntryGivesValue(init, i);
    }
  }

  /** Last write wins: the dict holds exactly the names written, and each
      name maps to the value of its last entry. */
  lemma CollectLastWriteWins(entries: seq<(Key, Json)>)
    ensures forall k :: k in Collect(entries) <==> exists i :: 0 <= i < |entries| && entries[i].0 == k
    ensures forall i :: LastOccurrence(entries, i) ==> Collect(entries)[entries[i].0] == entries[i].1
    ensures forall k :: k in Collect(entries) ==> exists i :: LastOccurrence(entries, i) && entries[i].0 == k
  {
    var m := Collect(entries);
    forall k ensures k in m <==> exists i :: 0 <= i < |entries| && entries[i].0 == k {
      if k in m {
        var i := KeyHasLastEntry(entries, k);
      }
      if exists i :: 0 <= i < |entries| && entries[i].0 == k {
        var i :| 0 <= i < |entries| && entries[i].0 == k;
        WrittenNameIsKey(entries, i);
      }
    }
    forall i | LastOccurrence(entries, i) ensures entries[i].0 in m && m[entries[i].0] == entries[i].1 {
      LastEntryGivesValue(entries, i);
    }
    forall k | k in m ensures exists i :: LastOccurrence(entries, i) && entries[i].0 == k {
      var i := KeyHasLastEntry(entries, k);
    }
  }

  /** The body is "no body" exactly when nothing was iterated over, and a
      body that is present is never an empty dict. */
  lemma NoBodyExactlyWhenNoProperties(event: Event)
    requires SynthesizedBody(event).Ok?
    ensures SynthesizedBody(event) == Ok(None) <==> Elements(RequestProperties(event).value) == Ok([])
    ensures SynthesizedBody(event).value.Some? ==> |SynthesizedBody(event).value.value| > 0
  {
    var items := Elements(RequestProperties(event).value).value;
    var entries := Entries(items).value;
    EntriesPointwise(items);
    CollectLastWriteWins(entries);
    if entries != [] {
      assert entries[0].0 in Collect(entries);
    }
  }

  /** A missing `requestBody`, `content`, `application/json` or `properties`
      is not an error: it yields no body. */
  lemma AbsentPropertiesGiveNoBody(event: Event)
    requires PropertiesAbsent(event)
    ensures SynthesizedBody(event) == Ok(None)
  {
  }

  /** Reordering the list reorders the entries written: the loop over a
      reordering succeeds too, and writes the same entries. */
  lemma ReorderedEntries(items1: seq<Json>, items2: seq<Json>, entries1: seq<(Key, Json)>)
    requires multiset(items1) == multiset(items2)
    requires Entries(items1) == Ok(entries1)
    ensures Entries(items2).Ok?
    ensures forall e :: e in entries1 <==> e in Entries(items2).value
  {
    EntriesPointwise(items1);
    EntriesPointwise(items2);
    forall j | 0 <= j < |items2| ensures Entry(items2[j]).Ok? {
      assert items2[j] in multiset(items1);
    }
    var entries2 := Entries(items2).value;
    forall e ensures e in entries1 <==> e in entries2 {
      if e in entries1 {
        var i :| 0 <= i < |entries1| && entries1[i] == e;
        assert items1[i] in multiset(items2);
        var j :| 0 <= j < |items2| && items2[j] == items1[i];
        assert entries2[j] == e;
      }
      if e in entries2 {
        var j :| 0 <= j < |entries2| && entries2[j] == e;
        assert items2[j] in multiset(items1);
        var i :| 0 <= i < |items1| && items1[i] == items2[j];
        assert entries1[i] == e;
      }
    }
  }

  /** Two entry lists holding the same entries, one with distinct names,
      build the same dict. */
  lemma {:induction false} SameEntriesSameDict(entries1: seq<(Key, Json)>, entries2: seq<(Key, Json)>)
    requires DistinctNames(entries1)
    requires forall e :: e in entries1 <==> e in entries2
    ensures Collect(entries1) == Collect(entries2)
  {
    var m1, m2 := Collect(entries1), Collect(entries2);
    forall k | k in m2 ensures k in m1 && m1[k] == m2[k] {
      var j := KeyHasLastEntry(entries2, k);
      LastEntryGivesValue(entries2, j);
      assert entries2[j] in entries1;
      var i :| 0 <= i < |entries1| && entries1[i] == entries2[j];
      assert LastOccurrence(entries1, i);
      LastEntryGivesValue(entries1, i);
    }
    forall k | k in m1 ensures k in m2 {
      var i := KeyHasLastEntry(entries1, k);
      assert entries1[i] in entries2;
      var j :| 0 <= j < |entries2| && entries2[j] == entries1[i];
      WrittenNameIsKey(entries2, j);
    }
    assert m1 == m2;
  }

  /** With distinct names, reordering the `{name, value}` list does not
      change the dict (the loop over the reordered list also succeeds). */
  lemma CollectIgnoresOrder(items1: seq<Json>, items2: seq<Json>, entries1: seq<(Key, Json)>)
    requires multiset(items1) == multiset(items2)
    requires Entries(items1) == Ok(entries1) && DistinctNames(entries1)
    ensures Entries(items2).Ok? && Collect(Entries(items2).value) == Collect(entries1)
  {
    ReorderedEntries(items1, items2, entries1);
    SameEntriesSameDict(entries1, Entries(items2).value);
  }

  /** Two events whose `properties` lists are reorderings of each other, with
      distinct names, synthesise the same body. */
  lemma PropertyOrderIrrelevant(event1: Event, event2: Event, items1: seq<Json>, items2: seq<Json>, entries1: seq<(Key, Json)>)
    requires RequestProperties(event1) == Ok(Arr(items1)) && RequestProperties(event2) == Ok(Arr(items2))
    requires multiset(items1) == multiset(items2)
    requires Entries(items1) == Ok(entries1) && DistinctNames(entries1)
    ensures SynthesizedBody(event1) == SynthesizedBody(event2)
  {
    CollectIgnoresOrder(items1, items2, entries1);
  }

  /** A repeated name keeps the value written last. */
  lemma RepeatedNameKeepsLastValue(name: Key, first: Json, second: Json)
    ensures
      var items := [
        Obj(map["name" := name, "value" := first]),
        Obj(map["name" := name, "value" := second])];
      Entries(items).Ok? && Collect(Entries(items).value) == map[name := second]
  {
    var items := [
      Obj(map["name" := name, "value" := first]),
      Obj(map["name" := name, "value" := second])];
    assert Entry(items[0]) == Ok((name, first)) && Entry(items[1]) == Ok((name, second));
    assert items[..0] == [];
    EntriesStep(items, 0, []);
    assert [] + [(name, first)] == [(name, first)];
    EntriesStep(items, 1, [(name, first)]);
    assert items[..2] == items;
    CollectStep([], (name, first));
    CollectStep([(name, first)], (name, second));
  }

  /** A `{name, value}` dict whose name Python can hash. */
  ghost predicate WellFormedItem(item: Json) {
    item.Obj? && "name" in item.fields && "value" in item.fields && item.fields["name"].Hashable()
  }

  /** The `name` of a list element (Null when it has none). */
  ghost function NameOf(item: Json): Json {
    if item.Obj? && "name" in item.fields then item.fields["name"] else Null
  }

  /** The `value` of a list element (Null when it has none). */
  ghost function ValueOf(item: Json): Json {
    if item.Obj? && "value" in item.fields then item.fields["value"] else Null
  }

  /** Element `i` is the last one in the list with its name. */
  ghost predicate LastNamed(items: seq<Json>, i: int) {
    0 <= i < |items| && forall j :: i < j < |items| ==> NameOf(items[j]) != NameOf(items[i])
  }

  /** A list of well-formed `{name, value}` dicts writes each element's name
      and value, in order. */
  lemma WellFormedEntries(items: seq<Json>)
    requires forall i :: 0 <= i < |items| ==> WellFormedItem(items[i])
    ensures Entries(items).Ok? && |Entries(items).value| == |items|
    ensures forall i :: 0 <= i < |items| ==> Entries(items).value[i] == (NameOf(items[i]), ValueOf(items[i]))
  {
    forall i | 0 <= i < |items| ensures Entry(items[i]) == Ok((NameOf(items[i]), ValueOf(items[i]))) {
    }
    EntriesPointwise(items);
  }

  /** For an event whose `properties` is a list of well-formed `{name, value}`
      dicts: the body is present exactly when the list is non-empty, its keys
      are exactly the names in the list, and each name maps to the value of
      its last occurrence. */
  lemma BodyHoldsLastValues(event: Event, items: seq<Json>)
    requires RequestProperties(event) == Ok(Arr(items))
    requires forall i :: 0 <= i < |items| ==> WellFormedItem(items[i])
    ensures SynthesizedBody(event).Ok?
    ensures SynthesizedBody(event).value.None? <==> items == []
    ensures SynthesizedBody(event).value.Some? ==>
      var body := SynthesizedBody(event).value.value;
      && (forall k :: k in body <==> exists i :: 0 <= i < |items| && NameOf(items[i]) == k)
      && (forall i :: LastNamed(items, i) ==> NameOf(items[i]) in body && body[NameOf(items[i])] == ValueOf(items[i]))
  {
    WellFormedEntries(items);
    var entries := Entries(items).value;
    var m := Collect(entries);
    assert SynthesizedBody(event) == FoldElements(items);
    assert FoldElements(items) == Ok(if |m| > 0 then Some(m) else None);
    CollectLastWriteWins(entries);
    if items != [] {
      assert entries[0].0 in m;
    }
    forall k ensures k in m <==> exists i :: 0 <= i < |items| && NameOf(items[i]) == k {
      if k in m {
        var i :| 0 <= i < |entries| && entries[i].0 == k;
        assert NameOf(items[i]) == k;
      }
      if exists i :: 0 <= i < |items| && NameOf(items[i]) == k {
        var i :| 0 <= i < |items| && NameOf(items[i]) == k;
        assert entries[i].0 == k;
      }
    }
    forall i | LastNamed(items, i) ensures NameOf(items[i]) in m && m[NameOf(items[i])] == ValueOf(items[i]) {
      assert LastOccurrence(entries, i);
    }
  }
}
