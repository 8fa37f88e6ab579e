/**
 Thermostat schedules: entries that agree in everything but their days are merged into
 one item with the union of their days.
 */
module Schedule {
  datatype Mode = Heat | Cool | HeatAndCool

  /** The part of an entry that must agree; the seconds field also holds the sun time of a sunrise or sunset entry. */
  datatype Key = Key(mode: Mode, temperature: int, exact: bool, seconds: nat)

  datatype Entry = Entry(ids: seq<string>, days: bv8, key: Key)

  predicate HasDay(days: bv8, day: bv8) {
    days & day != 0
  }

  lemma UnionHasDay(a: bv8, b: bv8, day: bv8)
    ensures HasDay(a | b, day) <==> HasDay(a, day) || HasDay(b, day)
  {
  }

  predicate Subset(a: seq<string>, b: seq<string>) {
    forall i :: 0 <= i < |a| ==> a[i] in b
  }

  /** Whether an item absorbs an entry. */
  predicate Absorbs(item: Entry, entry: Entry) {
    item.key == entry.key && (item.ids == [] || Subset(entry.ids, item.ids))
  }

  /** The first item that absorbs the entry. */
  function Host(items: seq<Entry>, entry: Entry): (k: nat)
    ensures k <= |items|
    ensures k < |items| ==> Absorbs(items[k], entry)
    ensures forall i :: 0 <= i < k ==> !Absorbs(items[i], entry)
  {
    if items == [] then 0
    else if Absorbs(items[0], entry) then 0
    else 1 + Host(items[1..], entry)
  }

  /** icrule_parse_schedule, once the entry is parsed. */
  function Insert(items: seq<Entry>, entry: Entry): seq<Entry> {
    var k := Host(items, entry);
    if k < |items| then items[k := items[k].(days := items[k].days | entry.days)] else items + [entry]
  }

  /** The items after a list of entries. */
  function Merge(entries: seq<Entry>): seq<Entry> {
    if entries == [] then [] else Insert(Merge(entries[..|entries| - 1]), entries[|entries| - 1])
  }

  /** A set point: this thermostat, on this day, under this key. */
  predicate Covers(e: Entry, id: string, day: bv8, key: Key) {
    id in e.ids && HasDay(e.days, day) && e.key == key
  }

  predicate Covered(items: seq<Entry>, id: string, day: bv8, key: Key) {
    exists i :: 0 <= i < |items| && Covers(items[i], id, day, key)
  }

  predicate NoneEmpty(items: seq<Entry>) {
    forall i :: 0 <= i < |items| ==> items[i].ids != []
  }

  /** The item entry i went into. */
  function Owner(entries: seq<Entry>, i: nat): nat
    requires i < |entries|
  {
    Host(Merge(entries[..i]), entries[i])
  }

  // ---- one insertion ----

  lemma InsertKeeps(items: seq<Entry>, entry: Entry, id: string, day: bv8, key: Key)
    requires Covered(items, id, day, key)
    ensures Covered(Insert(items, entry), id, day, key)
  {
    var i :| 0 <= i < |items| && Covers(items[i], id, day, key);
    var k := Host(items, entry);
    if i == k {
      UnionHasDay(items[k].days, entry.days, day);
    }
    assert Covers(Insert(items, entry)[i], id, day, key);
  }

  lemma InsertCovers(items: seq<Entry>, entry: Entry, id: string, day: bv8, key: Key)
    requires Covers(entry, id, day, key)
    requires Host(items, entry) < |items| ==> items[Host(items, entry)].ids != []
    ensures Covered(Insert(items, entry), id, day, key)
  {
    var k := Host(items, entry);
    if k < |items| {
      UnionHasDay(items[k].days, entry.days, day);
      var j :| 0 <= j < |entry.ids| && entry.ids[j] == id;
      assert entry.ids[j] in items[k].ids;
      assert Covers(Insert(items, entry)[k], id, day, key);
    } else {
      assert Covers(Insert(items, entry)[|items|], id, day, key);
    }
  }

  lemma Fresh(items: seq<Entry>) returns (id: string)
    ensures forall i :: 0 <= i < |items| ==> id !in items[i].ids
  {
    var n := Longest(items);
    id := seq(n + 1, _ => 'x');
    assert |id| == n + 1;
  }

  lemma Longest(items: seq<Entry>) returns (n: nat)
    ensures forall i, j :: 0 <= i < |items| && 0 <= j < |items[i].ids| ==> |items[i].ids[j]| <= n
  {
    n := 0;
    for a := 0 to |items|
      invariant forall i, j :: 0 <= i < a && 0 <= j < |items[i].ids| ==> |items[i].ids[j]| <= n
    {
      for b := 0 to |items[a].ids|
        invariant forall i, j :: 0 <= i < a && 0 <= j < |items[i].ids| ==> |items[i].ids[j]| <= n
        invariant forall j :: 0 <= j < b ==> |items[a].ids[j]| <= n
      {
        n := if |items[a].ids[b]| > n then |items[a].ids[b]| else n;
      }
    }
  }

  ghost predicate CoversNext(items: seq<Entry>, entry: Entry) {
    forall id: string, day: bv8 :: Covers(entry, id, day, entry.key) ==> Covered(Insert(items, entry), id, day, entry.key)
  }

  /** Whatever entry comes next keeps its coverage exactly when no item has an empty id list. */
  lemma CoversNextIff(items: seq<Entry>)
    ensures (forall entry: Entry :: CoversNext(items, entry)) <==> NoneEmpty(items)
  {
    if NoneEmpty(items) {
      forall entry: Entry, id: string, day: bv8 | Covers(entry, id, day, entry.key)
        ensures Covered(Insert(items, entry), id, day, entry.key)
      {
        InsertCovers(items, entry, id, day, entry.key);
      }
    } else {
      var e :| 0 <= e < |items| && items[e].ids == [];
      var id := Fresh(items);
      var entry := Entry([id], 1, items[e].key);
      LostBehindEmpty(items, e, entry, id);
      assert !CoversNext(items, entry);
    }
  }

  lemma LostBehindEmpty(items: seq<Entry>, e: nat, entry: Entry, id: string)
    requires e < |items| && items[e].ids == [] && entry == Entry([id], 1, items[e].key)
    requires forall i :: 0 <= i < |items| ==> id !in items[i].ids
    ensures Covers(entry, id, 1, entry.key) && !Covered(Insert(items, entry), id, 1, entry.key)
  {
    assert Absorbs(items[e], entry);
    var k := Host(items, entry);
    assert k <= e;
    assert forall i :: 0 <= i < |items| ==> Insert(items, entry)[i].ids == items[i].ids;
  }

  // ---- whole lists ----

  lemma {:induction false} MergeNoneEmpty(entries: seq<Entry>)
    requires NoneEmpty(entries)
    ensures NoneEmpty(Merge(entries))
    decreases |entries|
  {
    if entries == [] {
    } else {
      MergeNoneEmpty(entries[..|entries| - 1]);
    }
  }

  /** Merging loses nothing that was asked for, as long as every entry names a thermostat. */
  lemma {:induction false} CoverageKept(entries: seq<Entry>, id: string, day: bv8, key: Key)
    requires NoneEmpty(entries) && Covered(entries, id, day, key)
    ensures Covered(Merge(entries), id, day, key)
    decreases |entries|
  {
    var n := |entries| - 1;
    var i :| 0 <= i < |entries| && Covers(entries[i], id, day, key);
    MergeNoneEmpty(entries[..n]);
    if i < n {
      assert Covers(entries[..n][i], id, day, key);
      CoverageKept(entries[..n], id, day, key);
      InsertKeeps(Merge(entries[..n]), entries[n], id, day, key);
    } else {
      InsertCovers(Merge(entries[..n]), entries[n], id, day, key);
    }
  }

  /** With an entry that names none, what a later entry asks for can be lost. */
  lemma EmptyEntryLosesCoverage(key: Key, id: string)
    ensures var entries := [Entry([], 1, key), Entry([id], 2, key)];
            Covered(entries, id, 2, key) && !Covered(Merge(entries), id, 2, key)
  {
    var a, b := Entry([], 1, key), Entry([id], 2, key);
    var entries := [a, b];
    assert Covers(entries[1], id, 2, key);
    assert [a][..0] == [] && entries[..1] == [a];
    assert Merge([a]) == [a];
    assert Merge(entries) == Insert([a], b);
  }

  /** Inserting the entry covers nothing but what was covered before or is asked for by it. */
  ghost predicate AddsOnlyAsked(items: seq<Entry>, entry: Entry) {
    forall id: string, day: bv8, key: Key ::
      Covered(Insert(items, entry), id, day, key) ==> Covered(items, id, day, key) || Covers(entry, id, day, key)
  }

  /** The thermostats the host names beyond the entry's are already covered on the entry's days. */
  ghost predicate ExtrasCovered(items: seq<Entry>, entry: Entry) {
    var k := Host(items, entry);
    k < |items| ==>
      forall id: string, day: bv8 ::
        id in items[k].ids && id !in entry.ids && HasDay(entry.days, day) ==> Covered(items, id, day, entry.key)
  }

  /** Merging changes thermostats on days nobody asked for, unless the host names no others or they were covered anyway. */
  lemma OverCoverageIff(items: seq<Entry>, entry: Entry)
    ensures AddsOnlyAsked(items, entry) <==> ExtrasCovered(items, entry)
  {
    var k := Host(items, entry);
    var after := Insert(items, entry);
    if AddsOnlyAsked(items, entry) && k < |items| {
      forall id: string, day: bv8 | id in items[k].ids && id !in entry.ids && HasDay(entry.days, day)
        ensures Covered(items, id, day, entry.key)
      {
        UnionHasDay(items[k].days, entry.days, day);
        assert Covers(after[k], id, day, entry.key);
      }
    }
    if ExtrasCovered(items, entry) {
      forall id: string, day: bv8, key: Key | Covered(after, id, day, key)
        ensures Covered(items, id, day, key) || Covers(entry, id, day, key)
      {
        AddedBy(items, entry, id, day, key);
      }
    }
  }

  lemma AddedBy(items: seq<Entry>, entry: Entry, id: string, day: bv8, key: Key)
    requires ExtrasCovered(items, entry) && Covered(Insert(items, entry), id, day, key)
    ensures Covered(items, id, day, key) || Covers(entry, id, day, key)
  {
    var k := Host(items, entry);
    var i :| 0 <= i < |Insert(items, entry)| && Covers(Insert(items, entry)[i], id, day, key);
    if i != k {
      assert Covers(items[i], id, day, key);
    } else if k < |items| {
      UnionHasDay(items[k].days, entry.days, day);
      assert HasDay(items[k].days, day) ==> Covers(items[k], id, day, key);
    }
  }

  /** Two entries, the second absorbed: a thermostat it does not name changes on its day. */
  lemma OverCoverage(key: Key)
    ensures var entries := [Entry(["a", "b"], 1, key), Entry(["a"], 2, key)];
            Covered(Merge(entries), "b", 2, key) && !Covered(entries, "b", 2, key)
  {
    var a, b := Entry(["a", "b"], 1, key), Entry(["a"], 2, key);
    var entries := [a, b];
    assert [a][..0] == [] && entries[..1] == [a];
    assert Merge([a]) == [a];
    assert "b" == a.ids[1] && "a" == a.ids[0];
    assert Absorbs(a, b);
    UnionHasDay(1, 2, 2);
    assert Covers(Merge(entries)[0], "b", 2, key);
    assert "b" != "a" by {
      assert "b"[0] != "a"[0];
    }
  }

  /** No item would be absorbed by an earlier one. */
  ghost predicate Separate(items: seq<Entry>) {
    forall i, j :: 0 <= i < j < |items| ==> !Absorbs(items[i], items[j])
  }

  lemma {:induction false} MergedSeparate(entries: seq<Entry>)
    ensures Separate(Merge(entries))
    decreases |entries|
  {
    if entries == [] {
    } else {
      var n := |entries| - 1;
      MergedSeparate(entries[..n]);
      InsertSeparate(Merge(entries[..n]), entries[n]);
    }
  }

  lemma InsertSeparate(items: seq<Entry>, entry: Entry)
    requires Separate(items)
    ensures Separate(Insert(items, entry))
  {
  }

  lemma MergeStep(entries: seq<Entry>, n: nat)
    requires n < |entries|
    ensures Merge(entries[..n + 1]) == Insert(Merge(entries[..n]), entries[n])
  {
    assert entries[..n + 1][..n] == entries[..n];
  }

  /** Entry i went into item k and asks for the day. */
  predicate Gives(entries: seq<Entry>, i: nat, k: nat, day: bv8)
    requires i < |entries|
  {
    Owner(entries, i) == k && HasDay(entries[i].days, day)
  }

  lemma {:induction false} DaysOfPrefix(entries: seq<Entry>, n: nat, k: nat, day: bv8)
    requires n <= |entries| && k < |Merge(entries[..n])|
    ensures HasDay(Merge(entries[..n])[k].days, day) <==> exists i :: 0 <= i < n && Gives(entries, i, k, day)
    decreases n
  {
    var m := n - 1;
    MergeStep(entries, m);
    var items, last := Merge(entries[..m]), entries[m];
    if k < |items| {
      DaysOfPrefix(entries, m, k, day);
      UnionHasDay(items[k].days, last.days, day);
      if Owner(entries, m) == k && HasDay(last.days, day) {
        assert Gives(entries, m, k, day);
      }
    } else {
      forall i | 0 <= i < m
        ensures !Gives(entries, i, k, day)
      {
        OwnerHosts(entries, m, i);
      }
      assert Gives(entries, m, k, day) <==> HasDay(last.days, day);
    }
  }

  /** The days of an item are exactly those of the entries that went into it. */
  lemma DaysAreUnion(entries: seq<Entry>, k: nat, day: bv8)
    requires k < |Merge(entries)|
    ensures HasDay(Merge(entries)[k].days, day) <==> exists i :: 0 <= i < |entries| && Gives(entries, i, k, day)
  {
    assert entries[..|entries|] == entries;
    DaysOfPrefix(entries, |entries|, k, day);
  }

  /** Every entry went into an item with its key that names each of its thermostats, unless that item names none. */
  lemma {:induction false} OwnerHosts(entries: seq<Entry>, n: nat, i: nat)
    requires i < n <= |entries|
    ensures Owner(entries, i) < |Merge(entries[..n])| && Absorbs(Merge(entries[..n])[Owner(entries, i)], entries[i])
    decreases n
  {
    MergeStep(entries, n - 1);
    if i < n - 1 {
      OwnerHosts(entries, n - 1, i);
    }
  }

  // ---- what is merged with what ----

  lemma InsertKeepsNames(items: seq<Entry>, entry: Entry, i: nat)
    requires i < |items|
    ensures i < |Insert(items, entry)| && Insert(items, entry)[i].ids == items[i].ids && Insert(items, entry)[i].key == items[i].key
  {
  }

  lemma HostIs(items: seq<Entry>, e: Entry, k: nat)
    requires k < |items| && Absorbs(items[k], e) && forall i :: 0 <= i < k ==> !Absorbs(items[i], e)
    ensures Host(items, e) == k
  {
  }

  /** The first item that absorbs an entry stays the first when another comes in, and takes over when the entry itself does. */
  lemma HostAfterInsert(items: seq<Entry>, entry: Entry, e: Entry)
    requires Host(items, e) < |items| || e == entry
    ensures Host(Insert(items, entry), e) == Host(items, e) < |Insert(items, entry)|
  {
    var k := Host(items, e);
    var after := Insert(items, entry);
    forall i | 0 <= i < |items|
      ensures Absorbs(after[i], e) == Absorbs(items[i], e)
    {
      InsertKeepsNames(items, entry, i);
    }
    HostIs(after, e, k);
  }

  lemma {:induction false} OwnerStable(entries: seq<Entry>, n: nat, i: nat)
    requires i < n <= |entries|
    ensures Host(Merge(entries[..n]), entries[i]) == Owner(entries, i) < |Merge(entries[..n])|
    decreases n
  {
    MergeStep(entries, n - 1);
    if i < n - 1 {
      OwnerStable(entries, n - 1, i);
    }
    HostAfterInsert(Merge(entries[..n - 1]), entries[n - 1], entries[i]);
  }

  /** Entries with the same key and the same thermostats always go into one item. */
  lemma SameEntriesShare(entries: seq<Entry>, i: nat, j: nat)
    requires i < j < |entries| && entries[i].key == entries[j].key && entries[i].ids == entries[j].ids
    ensures Owner(entries, i) == Owner(entries, j)
  {
    OwnerStable(entries, j, i);
    HostOfSame(Merge(entries[..j]), entries[i], entries[j]);
  }

  lemma {:induction false} HostOfSame(items: seq<Entry>, a: Entry, b: Entry)
    requires a.key == b.key && a.ids == b.ids
    ensures Host(items, a) == Host(items, b)
    decreases |items|
  {
    if items == [] {
    } else {
      HostOfSame(items[1..], a, b);
    }
  }

  /** An entry whose thermostats an earlier one with its key named adds no item. */
  lemma NamedBeforeAddsNothing(entries: seq<Entry>, i: nat, j: nat)
    requires i < j < |entries| && entries[i].key == entries[j].key
    requires forall k :: 0 <= k < |entries[j].ids| ==> entries[j].ids[k] in entries[i].ids
    ensures Owner(entries, j) < |Merge(entries[..j])| && |Merge(entries[..j + 1])| == |Merge(entries[..j])|
  {
    OwnerHosts(entries, j, i);
    MergeStep(entries, j);
    var item := Merge(entries[..j])[Owner(entries, i)];
    if item.ids != [] {
      forall k | 0 <= k < |entries[j].ids|
        ensures entries[j].ids[k] in item.ids
      {
        assert entries[j].ids[k] in entries[i].ids;
      }
    }
    assert Absorbs(item, entries[j]);
  }

  /** An entry that names a thermostat no earlier entry with its key named, with none of those empty, adds an item of its own. */
  lemma UnnamedAddsItem(entries: seq<Entry>, j: nat, id: string)
    requires j < |entries| && id in entries[j].ids
    requires forall i :: 0 <= i < j && entries[i].key == entries[j].key ==> entries[i].ids != [] && id !in entries[i].ids
    ensures Owner(entries, j) == |Merge(entries[..j])| && |Merge(entries[..j + 1])| == |Merge(entries[..j])| + 1
  {
    MergeStep(entries, j);
    var k := Owner(entries, j);
    if k < |Merge(entries[..j])| {
      var f := FirstOf(entries, j, k);
    }
  }

  /** The entry an item was made from. */
  lemma {:induction false} FirstOf(entries: seq<Entry>, n: nat, k: nat) returns (f: nat)
    requires n <= |entries| && k < |Merge(entries[..n])|
    ensures f < n && entries[f].ids == Merge(entries[..n])[k].ids && entries[f].key == Merge(entries[..n])[k].key
    decreases n
  {
    MergeStep(entries, n - 1);
    var items := Merge(entries[..n - 1]);
    if k < |items| {
      InsertKeepsNames(items, entries[n - 1], k);
      f := FirstOf(entries, n - 1, k);
    } else {
      f := n - 1;
    }
  }

  /** No two items of the result have the same key and the same thermostats. */
  lemma ItemsDiffer(entries: seq<Entry>, i: nat, j: nat)
    requires i < j < |Merge(entries)|
    ensures Merge(entries)[i].key != Merge(entries)[j].key || Merge(entries)[i].ids != Merge(entries)[j].ids
  {
    MergedSeparate(entries);
  }
}

/** The merge in its own form: nested searches over a list updated in place. */
module ScheduleObject {
  import opened Schedule

  /** The innermost loop: is the id in the item's list? */
  method Contains(ids: seq<string>, id: string) returns (found: bool)
    ensures found <==> id in ids
  {
    found := false;
    var i := 0;
    while !found && i < |ids|
      invariant 0 <= i <= |ids|
      invariant found <==> id in ids[..i]
    {
      if ids[i] == id {
        found := true;
      }
      i := i + 1;
    }
  }

  method ContainsAll(ids: seq<string>, wanted: seq<string>) returns (all: bool)
    ensures all <==> Subset(wanted, ids)
  {
    var rejected := false;
    var i := 0;
    while !rejected && i < |wanted|
      invariant 0 <= i <= |wanted|
      invariant rejected ==> !Subset(wanted, ids)
      invariant !rejected ==> Subset(wanted[..i], ids)
    {
      var found := Contains(ids, wanted[i]);
      if !found {
        rejected := true;
      }
      i := i + 1;
    }
    return !rejected;
  }

  class ScheduleList {
    var items: seq<Entry>

    constructor ()
      ensures items == Merge([])
    {
      items := [];
    }

    /** contians_schedule */
    method FindHost(entry: Entry) returns (k: nat)
      ensures k == Host(items, entry)
    {
      k := 0;
      while k < |items|
        invariant 0 <= k <= |items|
        invariant forall i :: 0 <= i < k ==> !Absorbs(items[i], entry)
      {
        var item := items[k];
        if entry.key == item.key {
          if |item.ids| == 0 {
            return;
          }
          var all := ContainsAll(item.ids, entry.ids);
          if all {
            return;
          }
        }
        k := k + 1;
      }
    }

    /** The end of icrule_parse_schedule. */
    method Add(entry: Entry)
      modifies this
      ensures items == Insert(old(items), entry)
    {
      var k := FindHost(entry);
      if k < |items| {
        items := items[k := items[k].(days := items[k].days | entry.days)];
      } else {
        items := items + [entry];
      }
    }

    /** All the entries of a rule. */
    method AddAll(entries: seq<Entry>)
      requires items == []
      modifies this
      ensures items == Merge(entries)
    {
      for i := 0 to |entries|
        invariant items == Merge(entries[..i])
      {
        Add(entries[i]);
        MergeStep(entries, i);
      }
      assert entries[..|entries|] == entries;
    }
  }
}
