/** Identity reconciliation before the catalog is written (`createMasterTests`):
    component ids are filled in, entries without a test id are grouped by
    name and share one test id per group, and everything is upserted by `id`. */
module Reconcile {
  import opened Options
  import opened Seqs
  import opened JsText
  import opened FreshIds

  /** The fields of a test that `createMasterTests` reads or writes, under
      the camelCase names it uses. */
  datatype Entry = Entry(id: string, name: string, testId: string, componentId: string)

  /** The catalog collection, one document per `id`. */
  type Store = map<string, Entry>

  /** The grouping key `test.name.trim().toLowerCase()`. */
  function NameKey(name: string): string {
    ToLower(Trim(name))
  }

  /** `!test.testId?.trim()`: the entry takes part in name grouping. */
  predicate Grouped(e: Entry) {
    IsBlank(e.testId)
  }

  /** One slot per entry for the component-id loop: its own id when that is
      not blank, to be minted otherwise. */
  function ComponentSlots(list: seq<Entry>): (slots: seq<Option<string>>)
    ensures |slots| == |list|
    ensures forall i :: 0 <= i < |list| ==> (slots[i].None? <==> IsBlank(list[i].componentId))
    ensures forall i :: 0 <= i < |list| && slots[i].Some? ==> slots[i].value == list[i].componentId
  {
    seq(|list|, i requires 0 <= i < |list| =>
      if IsBlank(list[i].componentId) then None else Some(list[i].componentId))
  }

  /** The first loop: each blank `componentId` is replaced by a fresh id, in
      list order, starting at counter `n`; what it does to the component ids
      is `ComponentIdsAssigned`. */
  function AssignComponentIds(list: seq<Entry>, n: nat): (r: seq<Entry>)
    ensures |r| == |list|
    ensures forall i :: 0 <= i < |list| ==>
              r[i].id == list[i].id && r[i].name == list[i].name && r[i].testId == list[i].testId
  {
    var ids := Mint(ComponentSlots(list), n);
    seq(|list|, i requires 0 <= i < |list| => list[i].(componentId := ids[i]))
  }

  /** A component id that is not blank is kept; the i-th blank one becomes
      the fresh id drawn after those of the blank ones before it. */
  lemma ComponentIdsAssigned(list: seq<Entry>, n: nat)
    ensures forall i :: 0 <= i < |list| && !IsBlank(list[i].componentId) ==>
              AssignComponentIds(list, n)[i].componentId == list[i].componentId
    ensures forall i :: 0 <= i < |list| && IsBlank(list[i].componentId) ==>
              AssignComponentIds(list, n)[i].componentId == FreshId(n + MissingCount(ComponentSlots(list)[..i]))
  {
    var slots := ComponentSlots(list);
    var ids := Mint(slots, n);
    var r := AssignComponentIds(list, n);
    forall i | 0 <= i < |list|
      ensures r[i].componentId == ids[i]
      ensures slots[i].Some? ==> ids[i] == slots[i].value
      ensures slots[i].None? ==> ids[i] == FreshId(n + MissingCount(slots[..i]))
    {
      MintAt(slots, n, i);
    }
  }

  /** The group an entry joins, if any. */
  function GroupOf(e: Entry): Option<string> {
    if Grouped(e) then Some(NameKey(e.name)) else None
  }

  /** The group of every entry, position by position. */
  function GroupOfEach(list: seq<Entry>): (ks: seq<Option<string>>)
    ensures |ks| == |list|
    ensures forall i :: 0 <= i < |list| ==> ks[i] == GroupOf(list[i])
  {
    seq(|list|, i requires 0 <= i < |list| => GroupOf(list[i]))
  }

  /** Every value taken from the groups of `list` is the name key of a
      grouped entry. */
  lemma KeysFromGroupedEntries(list: seq<Entry>, keys: seq<string>)
    requires forall k :: k in keys ==> Some(k) in GroupOfEach(list)
    ensures forall k :: k in keys ==> exists i :: 0 <= i < |list| && Grouped(list[i]) && NameKey(list[i].name) == k
  {
    var ks := GroupOfEach(list);
    forall k | k in keys
      ensures exists i :: 0 <= i < |list| && Grouped(list[i]) && NameKey(list[i].name) == k
    {
      var i :| 0 <= i < |ks| && ks[i] == Some(k);
      assert GroupOf(list[i]) == Some(k);
    }
  }

  /** The values present in `ks`, each once, in order of first occurrence. */
  function FirstOccurrences(ks: seq<Option<string>>): (keys: seq<string>)
    ensures Distinct(keys)
    ensures forall i :: 0 <= i < |ks| && ks[i].Some? ==> ks[i].value in keys
    ensures forall k :: k in keys ==> Some(k) in ks
  {
    if |ks| == 0 then []
    else
      var init := ks[..|ks| - 1];
      var last := ks[|ks| - 1];
      var keys := FirstOccurrences(init);
      assert forall i :: 0 <= i < |init| ==> init[i] == ks[i];
      assert forall k :: Some(k) in init ==> Some(k) in ks;
      if last.Some? && last.value !in keys then keys + [last.value] else keys
  }

  /** The keys of `groupedTests`: the name key of every grouped entry, each
      once, in order of first occurrence (a `Map` iterates in insertion order). */
  function GroupKeys(list: seq<Entry>): (keys: seq<string>)
    ensures Distinct(keys)
    ensures forall i :: 0 <= i < |list| && Grouped(list[i]) ==> NameKey(list[i].name) in keys
    ensures forall k :: k in keys ==> exists i :: 0 <= i < |list| && Grouped(list[i]) && NameKey(list[i].name) == k
  {
    var ks := GroupOfEach(list);
    var keys := FirstOccurrences(ks);
    KeysFromGroupedEntries(list, keys);
    keys
  }

  /** `new Map(existingTests.map(t => [t.name.toLowerCase(), t.testId]))`
      looked up at `key`: the test id of the LAST catalog pair whose
      lower-cased name is the key, because a later pair overwrites an earlier
      one. The catalog name is not trimmed. */
  function CatalogLookup(catalog: seq<(string, string)>, key: string): Option<string> {
    if |catalog| == 0 then None
    else if ToLower(catalog[|catalog| - 1].0) == key then Some(catalog[|catalog| - 1].1)
    else CatalogLookup(catalog[..|catalog| - 1], key)
  }

  /** A lookup misses exactly when no catalog name lower-cases to the key;
      a hit is the id of the last pair whose name does. */
  lemma {:induction false} CatalogLookupContents(catalog: seq<(string, string)>, key: string)
    ensures CatalogLookup(catalog, key).None? <==> forall i :: 0 <= i < |catalog| ==> ToLower(catalog[i].0) != key
    ensures CatalogLookup(catalog, key).Some? ==>
              exists i :: 0 <= i < |catalog| && ToLower(catalog[i].0) == key
                && catalog[i].1 == CatalogLookup(catalog, key).value
                && forall j :: i < j < |catalog| ==> ToLower(catalog[j].0) != key
  {
    if |catalog| > 0 {
      var init := catalog[..|catalog| - 1];
      assert forall i :: 0 <= i < |init| ==> init[i] == catalog[i];
      CatalogLookupContents(init, key);
      if ToLower(catalog[|catalog| - 1].0) != key && CatalogLookup(init, key).Some? {
        var i :| 0 <= i < |init| && ToLower(init[i].0) == key && init[i].1 == CatalogLookup(init, key).value
                 && forall j :: i < j < |init| ==> ToLower(init[j].0) != key;
        assert catalog[i] == init[i];
      }
    }
  }

  /** `testNameToId.get(key) || uuidv4()` for one group: a hit is used when it
      is a non-empty string; a miss or an empty id asks for a fresh one. */
  function Reusable(catalog: seq<(string, string)>, key: string): (slot: Option<string>)
    ensures slot.Some? <==> CatalogLookup(catalog, key).Some? && CatalogLookup(catalog, key).value != ""
    ensures slot.Some? ==> slot == CatalogLookup(catalog, key)
  {
    match CatalogLookup(catalog, key)
    case Some(v) => if v != "" then Some(v) else None
    case None => None
  }

  function GroupSlots(keys: seq<string>, catalog: seq<(string, string)>): (slots: seq<Option<string>>)
    ensures |slots| == |keys|
    ensures forall j :: 0 <= j < |keys| ==> slots[j] == Reusable(catalog, keys[j])
  {
    seq(|keys|, j requires 0 <= j < |keys| => Reusable(catalog, keys[j]))
  }

  /** The loop over `groupedTests`: every grouped entry takes the id of its
      group; an entry with a test id keeps it. */
  function AssignTestIds(list: seq<Entry>, keys: seq<string>, ids: seq<string>): (r: seq<Entry>)
    requires |ids| == |keys|
    requires forall i :: 0 <= i < |list| && Grouped(list[i]) ==> NameKey(list[i].name) in keys
    ensures |r| == |list|
    // only the test id can change, and only for a grouped entry
    ensures forall i :: 0 <= i < |list| ==>
              r[i].id == list[i].id && r[i].name == list[i].name && r[i].componentId == list[i].componentId
    ensures forall i :: 0 <= i < |list| && !Grouped(list[i]) ==> r[i] == list[i]
    // a grouped entry takes the id at the position of its name key
    ensures forall i :: 0 <= i < |list| && Grouped(list[i]) ==>
              exists k :: 0 <= k < |keys| && keys[k] == NameKey(list[i].name) && r[i].testId == ids[k]
    // grouped entries with the same name key share it
    ensures forall i, j ::
              0 <= i < |list| && 0 <= j < |list| && Grouped(list[i]) && Grouped(list[j])
              && NameKey(list[i].name) == NameKey(list[j].name)
              ==> r[i].testId == r[j].testId
  {
    seq(|list|, i requires 0 <= i < |list| =>
      if Grouped(list[i]) then list[i].(testId := ids[IndexOf(keys, NameKey(list[i].name))]) else list[i])
  }

  /** `Test.bulkWrite` of one `updateOne { filter: { id }, $set, upsert }` per
      entry, in list order: each entry is written under its own id. */
  function Upsert(store: Store, list: seq<Entry>): Store {
    if |list| == 0 then store
    else Upsert(store, list[..|list| - 1])[list[|list| - 1].id := list[|list| - 1]]
  }

  /** The ids of a list of entries. */
  function Ids(list: seq<Entry>): set<string> {
    set i | 0 <= i < |list| :: list[i].id
  }

  /** No later entry of `list` has the id of entry `i`. */
  predicate LastOfId(list: seq<Entry>, i: nat)
    requires i < |list|
  {
    forall j :: i < j < |list| ==> list[j].id != list[i].id
  }

  lemma IdsAppend(list: seq<Entry>)
    requires |list| > 0
    ensures Ids(list) == Ids(list[..|list| - 1]) + {list[|list| - 1].id}
  {
    var init := list[..|list| - 1];
    assert forall i :: 0 <= i < |init| ==> init[i] == list[i];
    assert list[|list| - 1].id in Ids(list);
  }

  /** The bulk write adds the list's ids to the store's and removes none. */
  lemma {:induction false} UpsertKeys(store: Store, list: seq<Entry>)
    ensures Upsert(store, list).Keys == store.Keys + Ids(list)
  {
    if |list| > 0 {
      UpsertKeys(store, list[..|list| - 1]);
      IdsAppend(list);
    }
  }

  /** The bulk write leaves the documents of every other id untouched. */
  lemma {:induction false} UpsertUntouched(store: Store, list: seq<Entry>, k: string)
    requires k in store && k !in Ids(list)
    ensures k in Upsert(store, list) && Upsert(store, list)[k] == store[k]
  {
    if |list| > 0 {
      IdsAppend(list);
      UpsertUntouched(store, list[..|list| - 1], k);
    }
  }

  /** After the bulk write, an id holds the last entry written under it. */
  lemma {:induction false} UpsertLastWritten(store: Store, list: seq<Entry>, i: nat)
    requires i < |list| && LastOfId(list, i)
    ensures list[i].id in Upsert(store, list) && Upsert(store, list)[list[i].id] == list[i]
  {
    if i < |list| - 1 {
      var init := list[..|list| - 1];
      assert init[i] == list[i] && LastOfId(init, i);
      UpsertLastWritten(store, init, i);
    }
  }

  /** What `createMasterTests` leaves behind: the updated list it returns,
      the store after the bulk write, and the id counter after it. */
  datatype Outcome = Outcome(tests: seq<Entry>, store: Store, next: nat)

  /** The counter value at which test-id minting starts. */
  function AfterComponents(list: seq<Entry>, n: nat): nat {
    n + MissingCount(ComponentSlots(list))
  }

  /** `createMasterTests(testList)`, with the catalog's `(name, testId)`
      pairs passed in as `catalog` and `uuidv4()` drawing from counter `n`. */
  function CreateMasterTests(list: seq<Entry>, catalog: seq<(string, string)>, store: Store, n: nat)
    : (o: Outcome)
    ensures |o.tests| == |list|
    ensures forall i :: 0 <= i < |list| ==> o.tests[i].id == list[i].id && o.tests[i].name == list[i].name
    ensures o.store == Upsert(store, o.tests)
    ensures n <= o.next
  {
    var withComponents := AssignComponentIds(list, n);
    var keys := GroupKeys(withComponents);
    var slots := GroupSlots(keys, catalog);
    var tests := AssignTestIds(withComponents, keys, Mint(slots, AfterComponents(list, n)));
    Outcome(tests, Upsert(store, tests), AfterComponents(list, n) + MissingCount(slots))
  }

  /** After `createMasterTests` every entry has a component id that is not
      blank; an entry that already had one keeps it. */
  lemma ComponentIdsFilled(list: seq<Entry>, catalog: seq<(string, string)>, store: Store, n: nat)
    ensures var o := CreateMasterTests(list, catalog, store, n);
            forall i :: 0 <= i < |list| ==> !IsBlank(o.tests[i].componentId)
    ensures var o := CreateMasterTests(list, catalog, store, n);
            forall i :: 0 <= i < |list| && !IsBlank(list[i].componentId) ==>
              o.tests[i].componentId == list[i].componentId
  {
    var o := CreateMasterTests(list, catalog, store, n);
    var withComponents := AssignComponentIds(list, n);
    ComponentIdsAssigned(list, n);
    forall i | 0 <= i < |list|
      ensures o.tests[i].componentId == withComponents[i].componentId
      ensures !IsBlank(o.tests[i].componentId)
    {
      if IsBlank(list[i].componentId) {
        FreshIdNotBlank(n + MissingCount(ComponentSlots(list)[..i]));
      }
    }
  }

  /** Two entries that both lacked a component id receive different ones. */
  lemma ComponentIdsFresh(list: seq<Entry>, catalog: seq<(string, string)>, store: Store, n: nat, i: nat, j: nat)
    requires i < j < |list|
    requires IsBlank(list[i].componentId) && IsBlank(list[j].componentId)
    ensures var o := CreateMasterTests(list, catalog, store, n);
            o.tests[i].componentId != o.tests[j].componentId
  {
    ComponentIdsAssigned(list, n);
    MintDistinct(ComponentSlots(list), n, i, j);
  }

  /** An entry that already has a test id keeps it. */
  lemma TestIdsKept(list: seq<Entry>, catalog: seq<(string, string)>, store: Store, n: nat)
    ensures var o := CreateMasterTests(list, catalog, store, n);
            forall i :: 0 <= i < |list| && !Grouped(list[i]) ==> o.tests[i].testId == list[i].testId
  {
  }

  /** All grouped entries whose names have the same key end up with the same
      test id. */
  lemma SameNameSameTestId(list: seq<Entry>, catalog: seq<(string, string)>, store: Store, n: nat, i: nat, j: nat)
    requires i < |list| && j < |list|
    requires Grouped(list[i]) && Grouped(list[j])
    requires NameKey(list[i].name) == NameKey(list[j].name)
    ensures var o := CreateMasterTests(list, catalog, store, n);
            o.tests[i].testId == o.tests[j].testId
  {
  }

  /** A grouped entry whose name key has a catalog hit with a non-empty id
      takes that id. */
  lemma CatalogHitReused(list: seq<Entry>, catalog: seq<(string, string)>, store: Store, n: nat, i: nat)
    requires i < |list| && Grouped(list[i])
    requires CatalogLookup(catalog, NameKey(list[i].name)).Some?
    requires CatalogLookup(catalog, NameKey(list[i].name)).value != ""
    ensures var o := CreateMasterTests(list, catalog, store, n);
            o.tests[i].testId == CatalogLookup(catalog, NameKey(list[i].name)).value
  {
    GroupedTestId(list, catalog, store, n, i);
    var keys := GroupKeys(AssignComponentIds(list, n));
    var slots := GroupSlots(keys, catalog);
    var k := IndexOf(keys, NameKey(list[i].name));
    assert slots[k] == CatalogLookup(catalog, NameKey(list[i].name)) by {
      assert slots[k] == Reusable(catalog, keys[k]);
    }
    MintAt(slots, AfterComponents(list, n), k);
  }

  /** The slot a grouped entry's test id is read from: the one at its name
      key's position among the group keys. */
  lemma GroupedTestId(list: seq<Entry>, catalog: seq<(string, string)>, store: Store, n: nat, i: nat)
    requires i < |list| && Grouped(list[i])
    ensures var keys := GroupKeys(AssignComponentIds(list, n));
            NameKey(list[i].name) in keys &&
            CreateMasterTests(list, catalog, store, n).tests[i].testId ==
              Mint(GroupSlots(keys, catalog), AfterComponents(list, n))[IndexOf(keys, NameKey(list[i].name))]
  {
    var withComponents := AssignComponentIds(list, n);
    assert withComponents[i].name == list[i].name && Grouped(withComponents[i]);
  }

  /** Where a grouped entry's test id comes from: the catalog's id for its
      name key when that id is usable, and otherwise a fresh id drawn after
      every component id. */
  lemma GroupedTestIdSource(list: seq<Entry>, catalog: seq<(string, string)>, store: Store, n: nat, i: nat)
    requires i < |list| && Grouped(list[i])
    ensures var slot := Reusable(catalog, NameKey(list[i].name));
            slot.Some? ==> CreateMasterTests(list, catalog, store, n).tests[i].testId == slot.value
    ensures var slot := Reusable(catalog, NameKey(list[i].name));
            slot.None? ==> exists c: nat :: c >= AfterComponents(list, n) &&
                             CreateMasterTests(list, catalog, store, n).tests[i].testId == FreshId(c)
  {
    if Reusable(catalog, NameKey(list[i].name)).Some? {
      CatalogHitReused(list, catalog, store, n, i);
    } else {
      var _, _, c := MintedTestId(list, catalog, store, n, i);
      assert c >= AfterComponents(list, n) && CreateMasterTests(list, catalog, store, n).tests[i].testId == FreshId(c);
    }
  }

  /** The test id of a grouped entry whose name key has no usable catalog
      hit: a fresh id drawn after the component ids, at the slot of its name
      key. */
  lemma MintedTestId(list: seq<Entry>, catalog: seq<(string, string)>, store: Store, n: nat, i: nat)
    returns (slots: seq<Option<string>>, k: nat, c: nat)
    requires i < |list| && Grouped(list[i])
    requires Reusable(catalog, NameKey(list[i].name)).None?
    ensures slots == GroupSlots(GroupKeys(AssignComponentIds(list, n)), catalog)
    ensures k < |slots| && slots[k].None?
    ensures GroupKeys(AssignComponentIds(list, n))[k] == NameKey(list[i].name)
    ensures c == AfterComponents(list, n) + MissingCount(slots[..k])
    ensures CreateMasterTests(list, catalog, store, n).tests[i].testId == FreshId(c)
  {
    var keys := GroupKeys(AssignComponentIds(list, n));
    slots := GroupSlots(keys, catalog);
    k := IndexOf(keys, NameKey(list[i].name));
    assert CreateMasterTests(list, catalog, store, n).tests[i].testId == Mint(slots, AfterComponents(list, n))[k] by {
      GroupedTestId(list, catalog, store, n, i);
    }
    assert slots[k].None? by {
      assert slots[k] == Reusable(catalog, keys[k]);
    }
    c := AfterComponents(list, n) + MissingCount(slots[..k]);
    MintAt(slots, AfterComponents(list, n), k);
  }

  /** When no catalog pair carries an id (`test.testId` of a document whose
      schema names the field `test_id` is `undefined`, written "" here), no
      group reuses anything: every grouped entry gets a freshly minted id. */
  lemma CatalogWithoutIdsMints(list: seq<Entry>, catalog: seq<(string, string)>, store: Store, n: nat, i: nat)
    returns (c: nat)
    requires i < |list| && Grouped(list[i])
    requires forall j :: 0 <= j < |catalog| ==> catalog[j].1 == ""
    ensures c >= AfterComponents(list, n)
    ensures CreateMasterTests(list, catalog, store, n).tests[i].testId == FreshId(c)
  {
    var key := NameKey(list[i].name);
    assert Reusable(catalog, key).None? by {
      CatalogLookupContents(catalog, key);
    }
    var _, _, c' := MintedTestId(list, catalog, store, n, i);
    c := c';
  }

  /** The test id minted for a group without a usable catalog hit is never
      blank. */
  lemma FreshTestIdNotBlank(list: seq<Entry>, catalog: seq<(string, string)>, store: Store, n: nat, i: nat)
    requires i < |list| && Grouped(list[i])
    requires Reusable(catalog, NameKey(list[i].name)).None?
    ensures !IsBlank(CreateMasterTests(list, catalog, store, n).tests[i].testId)
  {
    var _, _, c := MintedTestId(list, catalog, store, n, i);
    FreshIdNotBlank(c);
  }

  /** Two groups without a usable catalog hit get different test ids. */
  lemma FreshTestIdPerGroup(list: seq<Entry>, catalog: seq<(string, string)>, store: Store, n: nat, i: nat, j: nat)
    requires i < |list| && j < |list|
    requires Grouped(list[i]) && Grouped(list[j])
    requires Reusable(catalog, NameKey(list[i].name)).None? && Reusable(catalog, NameKey(list[j].name)).None?
    requires NameKey(list[i].name) != NameKey(list[j].name)
    ensures CreateMasterTests(list, catalog, store, n).tests[i].testId
            != CreateMasterTests(list, catalog, store, n).tests[j].testId
  {
    var slots, ki, _ := MintedTestId(list, catalog, store, n, i);
    var _, kj, _ := MintedTestId(list, catalog, store, n, j);
    if ki < kj {
      MissingCountMonotone(slots, ki, kj);
    } else {
      MissingCountMonotone(slots, kj, ki);
    }
  }

  /** The component id of an entry that had none: a fresh id from the first
      loop's counter range. */
  lemma MintedComponentId(list: seq<Entry>, catalog: seq<(string, string)>, store: Store, n: nat, j: nat)
    returns (c: nat)
    requires j < |list| && IsBlank(list[j].componentId)
    ensures c == n + MissingCount(ComponentSlots(list)[..j])
    ensures CreateMasterTests(list, catalog, store, n).tests[j].componentId == FreshId(c)
  {
    var withComponents := AssignComponentIds(list, n);
    c := n + MissingCount(ComponentSlots(list)[..j]);
    ComponentIdsAssigned(list, n);
    assert withComponents[j].componentId == FreshId(c);
  }

  /** A test id minted for a group never equals a component id minted for an
      entry: the two loops draw from consecutive, disjoint counter ranges. */
  lemma FreshIdsDisjoint(list: seq<Entry>, catalog: seq<(string, string)>, store: Store, n: nat, i: nat, j: nat)
    requires i < |list| && j < |list|
    requires Grouped(list[i]) && Reusable(catalog, NameKey(list[i].name)).None?
    requires IsBlank(list[j].componentId)
    ensures CreateMasterTests(list, catalog, store, n).tests[i].testId
            != CreateMasterTests(list, catalog, store, n).tests[j].componentId
  {
    var slots, ki, _ := MintedTestId(list, catalog, store, n, i);
    var b := MintedComponentId(list, catalog, store, n, j);
    MintRange(ComponentSlots(list), n, j);
    MintRange(slots, AfterComponents(list, n), ki);
  }

  /** Every id already in use when `createMasterTests` runs: the list's own
      ids, test ids and component ids, the ids the catalog holds, and the
      ids, test ids and component ids of the stored documents. */
  function Used(list: seq<Entry>, catalog: seq<(string, string)>, store: Store): set<string> {
    Ids(list)
    + (set i | 0 <= i < |list| :: list[i].testId)
    + (set i | 0 <= i < |list| :: list[i].componentId)
    + (set j | 0 <= j < |catalog| :: catalog[j].1)
    + store.Keys
    + (set k | k in store :: store[k].testId)
    + (set k | k in store :: store[k].componentId)
  }

  /** A component id minted for an entry is none of the ids already in use. */
  lemma MintedComponentIdUnused(list: seq<Entry>, catalog: seq<(string, string)>, store: Store, n: nat, j: nat)
    requires j < |list| && IsBlank(list[j].componentId)
    requires FreshFrom(n, Used(list, catalog, store))
    ensures CreateMasterTests(list, catalog, store, n).tests[j].componentId !in Used(list, catalog, store)
  {
    var c := MintedComponentId(list, catalog, store, n, j);
  }

  /** A test id minted for a group is none of the ids already in use. */
  lemma MintedTestIdUnused(list: seq<Entry>, catalog: seq<(string, string)>, store: Store, n: nat, i: nat)
    requires i < |list| && Grouped(list[i])
    requires Reusable(catalog, NameKey(list[i].name)).None?
    requires FreshFrom(n, Used(list, catalog, store))
    ensures CreateMasterTests(list, catalog, store, n).tests[i].testId !in Used(list, catalog, store)
  {
    var _, _, c := MintedTestId(list, catalog, store, n, i);
  }

  /** With a supply that avoids every id in use, an entry that lacked a
      component id ends up with one that no other entry has. */
  lemma ComponentIdUnique(list: seq<Entry>, catalog: seq<(string, string)>, store: Store, n: nat, i: nat)
    requires i < |list| && IsBlank(list[i].componentId)
    requires FreshFrom(n, Used(list, catalog, store))
    ensures var o := CreateMasterTests(list, catalog, store, n);
            forall j :: 0 <= j < |list| && j != i ==> o.tests[j].componentId != o.tests[i].componentId
  {
    var o := CreateMasterTests(list, catalog, store, n);
    MintedComponentIdUnused(list, catalog, store, n, i);
    ComponentIdsFilled(list, catalog, store, n);
    forall j | 0 <= j < |list| && j != i
      ensures o.tests[j].componentId != o.tests[i].componentId
    {
      if IsBlank(list[j].componentId) {
        if i < j {
          ComponentIdsFresh(list, catalog, store, n, i, j);
        } else {
          ComponentIdsFresh(list, catalog, store, n, j, i);
        }
      } else {
        assert list[j].componentId in Used(list, catalog, store);
      }
    }
  }

  /** With a supply that avoids every id in use, a test id minted for a
      group is held by exactly the entries of that group: the grouped
      entries whose names have the same key. */
  lemma MintedTestIdOwnedByGroup(list: seq<Entry>, catalog: seq<(string, string)>, store: Store, n: nat, i: nat)
    requires i < |list| && Grouped(list[i])
    requires Reusable(catalog, NameKey(list[i].name)).None?
    requires FreshFrom(n, Used(list, catalog, store))
    ensures var o := CreateMasterTests(list, catalog, store, n);
            forall j :: 0 <= j < |list| ==>
              (o.tests[j].testId == o.tests[i].testId <==> Grouped(list[j]) && NameKey(list[j].name) == NameKey(list[i].name))
  {
    forall j | 0 <= j < |list|
      ensures var o := CreateMasterTests(list, catalog, store, n);
              o.tests[j].testId == o.tests[i].testId <==> Grouped(list[j]) && NameKey(list[j].name) == NameKey(list[i].name)
    {
      SharesMintedTestId(list, catalog, store, n, i, j);
    }
  }

  /** `MintedTestIdOwnedByGroup` for one other entry `j`. */
  lemma SharesMintedTestId(list: seq<Entry>, catalog: seq<(string, string)>, store: Store, n: nat, i: nat, j: nat)
    requires i < |list| && j < |list| && Grouped(list[i])
    requires Reusable(catalog, NameKey(list[i].name)).None?
    requires FreshFrom(n, Used(list, catalog, store))
    ensures var o := CreateMasterTests(list, catalog, store, n);
            o.tests[j].testId == o.tests[i].testId <==> Grouped(list[j]) && NameKey(list[j].name) == NameKey(list[i].name)
  {
    var o := CreateMasterTests(list, catalog, store, n);
    var used := Used(list, catalog, store);
    var kj := NameKey(list[j].name);
    MintedTestIdUnused(list, catalog, store, n, i);
    if !Grouped(list[j]) {
      TestIdsKept(list, catalog, store, n);
      assert list[j].testId in used;
    } else if kj == NameKey(list[i].name) {
      SameNameSameTestId(list, catalog, store, n, i, j);
    } else if Reusable(catalog, kj).None? {
      FreshTestIdPerGroup(list, catalog, store, n, i, j);
    } else {
      CatalogHitReused(list, catalog, store, n, j);
      CatalogLookupContents(catalog, kj);
      var k :| 0 <= k < |catalog| && catalog[k].1 == CatalogLookup(catalog, kj).value;
      assert catalog[k].1 in used;
    }
  }

  /** The position of the last entry of `list` written under `k`. */
  function LastWith(list: seq<Entry>, k: string): (i: nat)
    requires exists i :: 0 <= i < |list| && list[i].id == k
    ensures i < |list| && list[i].id == k
    ensures forall j :: i < j < |list| ==> list[j].id != k
  {
    if list[|list| - 1].id == k then |list| - 1
    else
      assert forall i :: 0 <= i < |list| - 1 ==> list[..|list| - 1][i] == list[i];
      LastWith(list[..|list| - 1], k)
  }

  lemma StoresAgree(a: Store, b: Store)
    requires a.Keys == b.Keys
    requires forall k :: k in a ==> a[k] == b[k]
    ensures a == b
  {
  }

  /** The bulk write leaves every other document alone, and each id holds the
      last entry written under it. Writing the same list again changes
      nothing. */
  lemma UpsertLastWins(store: Store, list: seq<Entry>)
    ensures forall k :: k in store && k !in Ids(list) ==>
              k in Upsert(store, list) && Upsert(store, list)[k] == store[k]
    ensures forall i :: 0 <= i < |list| ==>
              list[i].id in Upsert(store, list) && Upsert(store, list)[list[i].id] == list[LastWith(list, list[i].id)]
    ensures Upsert(Upsert(store, list), list) == Upsert(store, list)
  {
    var once := Upsert(store, list);
    var twice := Upsert(once, list);
    forall k | k in store && k !in Ids(list)
      ensures k in once && once[k] == store[k]
    {
      UpsertUntouched(store, list, k);
    }
    forall i | 0 <= i < |list|
      ensures list[i].id in once && once[list[i].id] == list[LastWith(list, list[i].id)]
      ensures list[i].id in twice && twice[list[i].id] == list[LastWith(list, list[i].id)]
    {
      var l := LastWith(list, list[i].id);
      UpsertLastWritten(store, list, l);
      UpsertLastWritten(once, list, l);
    }
    UpsertKeys(store, list);
    UpsertKeys(once, list);
    forall k | k in twice
      ensures k in once && twice[k] == once[k]
    {
      if k !in Ids(list) {
        UpsertUntouched(once, list, k);
      }
    }
    StoresAgree(twice, once);
  }

  /** The store after `createMasterTests`: it holds exactly the old ids and
      the list's ids; documents of other ids are untouched; every returned
      entry is stored under its id when the list's ids are distinct. */
  lemma StoreAfterCreate(list: seq<Entry>, catalog: seq<(string, string)>, store: Store, n: nat)
    ensures var o := CreateMasterTests(list, catalog, store, n);
            o.store.Keys == store.Keys + Ids(list)
    ensures var o := CreateMasterTests(list, catalog, store, n);
            forall k :: k in store && k !in Ids(list) ==> o.store[k] == store[k]
    ensures var o := CreateMasterTests(list, catalog, store, n);
            (forall i, j :: 0 <= i < j < |list| ==> list[i].id != list[j].id) ==>
              forall i :: 0 <= i < |list| ==> o.store[list[i].id] == o.tests[i]
  {
    var o := CreateMasterTests(list, catalog, store, n);
    assert Ids(list) == Ids(o.tests);
    UpsertKeys(store, o.tests);
    forall k | k in store && k !in Ids(list)
      ensures o.store[k] == store[k]
    {
      UpsertUntouched(store, o.tests, k);
    }
    if forall i, j :: 0 <= i < j < |list| ==> list[i].id != list[j].id {
      forall i | 0 <= i < |list|
        ensures o.store[list[i].id] == o.tests[i]
      {
        UpsertLastWritten(store, o.tests, i);
      }
    }
  }
}
