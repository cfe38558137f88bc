/** The account resource-introspection walk of the test harness: from a
    component's root state, through each lazy map it references and each entry
    of that map, to every vault an entry references, and from there to an index
    from resource address to vault contents. */
module Introspection {
  import opened Base
  import opened Ledger

  /** What one vault holds, by the kind of its resource. */
  datatype Contents = Amount(amount: int) | NonFungibleKeys(keys: seq<NonFungibleKey>)

  /** The resource kind and the contents variant agree: fungible resources
      report an amount, non-fungible ones report their keys. */
  predicate Agrees(kind: ResourceType, contents: Contents) {
    contents.Amount? <==> kind.Fungible?
  }

  // ---------------------------------------------------------------------------
  // Reference definitions: what the walk visits, stated without `Result`.
  // ---------------------------------------------------------------------------

  /** Every lookup that resolving `vid` needs succeeds: the vault exists under
      the component, its resource definition exists, and a vault of a
      non-fungible resource can list its ids. */
  ghost predicate VaultResolves(store: Store, component: Address, vid: Vid) {
    && (component, vid) in store.vaults
    && var vault := store.vaults[(component, vid)];
    && vault.resourceAddress in store.resourceDefs
    && (store.resourceDefs[vault.resourceAddress].NonFungible? ==> vault.nonFungibleIds.Some?)
  }

  ghost predicate AllResolve(store: Store, component: Address, vids: seq<Vid>) {
    forall i :: 0 <= i < |vids| ==> VaultResolves(store, component, vids[i])
  }

  /** `ts` holds, position by position, the resolution of each vault in `vids`. */
  ghost predicate ResolvedTo(store: Store, component: Address, vids: seq<Vid>, ts: seq<(Address, Contents)>) {
    && |ts| == |vids|
    && forall i :: 0 <= i < |vids| ==> VaultInfo(store, component, vids[i]) == Ok(ts[i])
  }

  /** The vault `vid` of the component holds resource `resource`. */
  ghost predicate Holds(store: Store, component: Address, vid: Vid, resource: Address) {
    (component, vid) in store.vaults && store.vaults[(component, vid)].resourceAddress == resource
  }

  /** The vaults a blob references once validated; a rejected blob references none. */
  function ValidatedVaults(validate: Validator, data: Bytes): seq<Vid> {
    match validate(data)
    case Some(d) => d.vaults
    case None => []
  }

  ghost predicate EntriesValid(validate: Validator, entries: seq<Entry>) {
    forall i :: 0 <= i < |entries| ==> validate(entries[i].data).Some?
  }

  /** The vault references of all entries, concatenated in entry order. */
  ghost function EntryVaults(validate: Validator, entries: seq<Entry>): seq<Vid> {
    if entries == [] then [] else ValidatedVaults(validate, entries[0].data) + EntryVaults(validate, entries[1..])
  }

  /** The lazy map exists and every entry of it validates. */
  ghost predicate MapWalkable(store: Store, validate: Validator, component: Address, mid: Mid) {
    (component, mid) in store.lazyMaps && EntriesValid(validate, store.lazyMaps[(component, mid)])
  }

  ghost predicate MapsWalkable(store: Store, validate: Validator, component: Address, mids: seq<Mid>) {
    forall i :: 0 <= i < |mids| ==> MapWalkable(store, validate, component, mids[i])
  }

  /** The vault references found in one lazy map's entries. */
  ghost function MapVaults(store: Store, validate: Validator, component: Address, mid: Mid): seq<Vid> {
    if (component, mid) in store.lazyMaps then EntryVaults(validate, store.lazyMaps[(component, mid)]) else []
  }

  /** The vault references found through a list of lazy maps, in order. */
  ghost function ReachableFrom(store: Store, validate: Validator, component: Address, mids: seq<Mid>): seq<Vid> {
    if mids == [] then []
    else MapVaults(store, validate, component, mids[0]) + ReachableFrom(store, validate, component, mids[1..])
  }

  /** The vault references the walk visits, in visiting order: only those in
      entries of the lazy maps the root state references. Vaults referenced
      directly by the root state are not among them. */
  ghost function ReachableVaults(store: Store, validate: Validator, component: Address): seq<Vid> {
    if component in store.components && validate(store.components[component]).Some?
    then ReachableFrom(store, validate, component, validate(store.components[component]).value.lazyMaps)
    else []
  }

  /** Every lookup and validation the walk performs succeeds. */
  ghost predicate WalkSucceeds(store: Store, validate: Validator, component: Address) {
    && component in store.components
    && validate(store.components[component]).Some?
    && MapsWalkable(store, validate, component, validate(store.components[component]).value.lazyMaps)
    && AllResolve(store, component, ReachableVaults(store, validate, component))
  }

  // ---------------------------------------------------------------------------
  // The walk.
  // ---------------------------------------------------------------------------

  /** Resolves one vault to its resource address and contents. */
  function VaultInfo(store: Store, component: Address, vid: Vid): (r: Result<(Address, Contents)>)
    ensures r.Ok? <==> VaultResolves(store, component, vid)
    ensures r.Ok? ==>
              var vault := store.vaults[(component, vid)];
              && r.value.0 == vault.resourceAddress
              && Agrees(store.resourceDefs[r.value.0], r.value.1)
              && (r.value.1.Amount? ==> r.value.1.amount == vault.amount)
              && (r.value.1.NonFungibleKeys? ==> vault.nonFungibleIds == Some(r.value.1.keys))
  {
    if (component, vid) !in store.vaults then Panic(VaultNotFound)
    else
      var vault := store.vaults[(component, vid)];
      if vault.resourceAddress !in store.resourceDefs then Panic(ResourceDefNotFound(vault.resourceAddress))
      else
        match store.resourceDefs[vault.resourceAddress]
        case Fungible(_) => Ok((vault.resourceAddress, Amount(vault.amount)))
        case NonFungible =>
          match vault.nonFungibleIds
          case None => Panic(NonFungibleIdsUnavailable)
          case Some(ids) => Ok((vault.resourceAddress, NonFungibleKeys(ids)))
  }

  /** Resolves a list of vault references in order; the first failure aborts. */
  function VaultsInfo(store: Store, component: Address, vids: seq<Vid>): (r: Result<seq<(Address, Contents)>>)
    ensures r.Ok? <==> AllResolve(store, component, vids)
    ensures r.Ok? ==> ResolvedTo(store, component, vids, r.value)
  {
    if vids == [] then Ok([])
    else
      match VaultInfo(store, component, vids[0])
      case Panic(e) => Panic(e)
      case Ok(t) =>
        match VaultsInfo(store, component, vids[1..])
        case Panic(e) => Panic(e)
        case Ok(ts) => Ok([t] + ts)
  }

  /** Validates each entry's value and resolves the vaults it references,
      concatenating the results in entry order. */
  function EntriesInfo(store: Store, validate: Validator, component: Address, entries: seq<Entry>)
    : (r: Result<seq<(Address, Contents)>>)
    ensures r.Ok? <==> EntriesValid(validate, entries) && AllResolve(store, component, EntryVaults(validate, entries))
    ensures r.Ok? ==> ResolvedTo(store, component, EntryVaults(validate, entries), r.value)
  {
    if entries == [] then Ok([])
    else
      match validate(entries[0].data)
      case None => Panic(MalformedState)
      case Some(d) =>
        var rest := entries[1..];
        AllResolveConcat(store, component, d.vaults, EntryVaults(validate, rest));
        match VaultsInfo(store, component, d.vaults)
        case Panic(e) => Panic(e)
        case Ok(head) =>
          match EntriesInfo(store, validate, component, rest)
          case Panic(e) => Panic(e)
          case Ok(tail) =>
            ResolvedConcat(store, component, d.vaults, EntryVaults(validate, rest), head, tail);
            Ok(head + tail)
  }

  /** Fetches one lazy map and walks its entries. */
  function LazyMapInfo(store: Store, validate: Validator, component: Address, mid: Mid)
    : (r: Result<seq<(Address, Contents)>>)
    ensures r.Ok? <==> MapWalkable(store, validate, component, mid) && AllResolve(store, component, MapVaults(store, validate, component, mid))
    ensures r.Ok? ==> ResolvedTo(store, component, MapVaults(store, validate, component, mid), r.value)
  {
    if (component, mid) !in store.lazyMaps then Panic(LazyMapNotFound)
    else EntriesInfo(store, validate, component, store.lazyMaps[(component, mid)])
  }

  /** Walks a list of lazy maps in order, concatenating their results. */
  function LazyMapsInfo(store: Store, validate: Validator, component: Address, mids: seq<Mid>)
    : (r: Result<seq<(Address, Contents)>>)
    ensures r.Ok? <==> MapsWalkable(store, validate, component, mids) && AllResolve(store, component, ReachableFrom(store, validate, component, mids))
    ensures r.Ok? ==> ResolvedTo(store, component, ReachableFrom(store, validate, component, mids), r.value)
  {
    if mids == [] then Ok([])
    else
      var rest := mids[1..];
      AllResolveConcat(store, component, MapVaults(store, validate, component, mids[0]), ReachableFrom(store, validate, component, rest));
      match LazyMapInfo(store, validate, component, mids[0])
      case Panic(e) => Panic(e)
      case Ok(head) =>
        match LazyMapsInfo(store, validate, component, rest)
        case Panic(e) => Panic(e)
        case Ok(tail) =>
          ResolvedConcat(store, component, MapVaults(store, validate, component, mids[0]), ReachableFrom(store, validate, component, rest), head, tail);
          Ok(head + tail)
  }

  /** Folds tuples into a map; a later tuple for the same address overwrites an
      earlier one. */
  function Collect(ts: seq<(Address, Contents)>): (m: map<Address, Contents>)
    ensures m.Keys == set i | 0 <= i < |ts| :: ts[i].0
    ensures forall a :: a in m ==> exists i :: 0 <= i < |ts| && ts[i] == (a, m[a])
  {
    if ts == [] then map[]
    else
      var init := ts[..|ts| - 1];
      assert forall i :: 0 <= i < |init| ==> init[i] == ts[i];
      Collect(init)[ts[|ts| - 1].0 := ts[|ts| - 1].1]
  }

  /** The resource index of a component: validates its root state, walks the
      lazy maps it references and folds the vault contents found into a map. */
  function AccountVaults(store: Store, validate: Validator, component: Address): (r: Result<map<Address, Contents>>)
    ensures component !in store.components ==> r == Panic(ComponentNotFound(component))
    ensures r.Ok? <==> WalkSucceeds(store, validate, component)
    ensures r.Ok? ==> forall a :: a in r.value ==> a in store.resourceDefs && Agrees(store.resourceDefs[a], r.value[a])
  {
    if component !in store.components then Panic(ComponentNotFound(component))
    else
      match validate(store.components[component])
      case None => Panic(MalformedState)
      case Some(root) =>
        match LazyMapsInfo(store, validate, component, root.lazyMaps)
        case Panic(e) => Panic(e)
        case Ok(ts) =>
          ResolvedAgree(store, component, ReachableFrom(store, validate, component, root.lazyMaps), ts);
          Ok(Collect(ts))
  }

  // ---------------------------------------------------------------------------
  // Helper lemmas for the walk.
  // ---------------------------------------------------------------------------

  lemma AllResolveConcat(store: Store, component: Address, a: seq<Vid>, b: seq<Vid>)
    ensures AllResolve(store, component, a + b) <==> AllResolve(store, component, a) && AllResolve(store, component, b)
  {
    if AllResolve(store, component, a) && AllResolve(store, component, b) {
      forall i | 0 <= i < |a + b| ensures VaultResolves(store, component, (a + b)[i]) {
        if i >= |a| { assert (a + b)[i] == b[i - |a|]; }
      }
    }
    if AllResolve(store, component, a + b) {
      forall i | 0 <= i < |a| ensures VaultResolves(store, component, a[i]) {
        assert (a + b)[i] == a[i];
      }
      forall i | 0 <= i < |b| ensures VaultResolves(store, component, b[i]) {
        assert (a + b)[|a| + i] == b[i];
      }
    }
  }

  lemma ResolvedConcat(store: Store, component: Address, a: seq<Vid>, b: seq<Vid>,
                       ta: seq<(Address, Contents)>, tb: seq<(Address, Contents)>)
    requires ResolvedTo(store, component, a, ta) && ResolvedTo(store, component, b, tb)
    ensures ResolvedTo(store, component, a + b, ta + tb)
  {
  }

  /** Every resolved tuple carries contents that agree with its resource's kind. */
  lemma ResolvedAgree(store: Store, component: Address, vids: seq<Vid>, ts: seq<(Address, Contents)>)
    requires ResolvedTo(store, component, vids, ts)
    ensures forall i :: 0 <= i < |ts| ==> ts[i].0 in store.resourceDefs && Agrees(store.resourceDefs[ts[i].0], ts[i].1)
  {
  }

  // ---------------------------------------------------------------------------
  // Properties of the index.
  // ---------------------------------------------------------------------------

  /** The fold keeps, for an address, the contents of the last tuple that
      carries it: two vaults of one resource are overwritten, not summed. */
  lemma {:induction false} CollectLastWins(ts: seq<(Address, Contents)>, i: nat)
    requires i < |ts|
    requires forall j :: i < j < |ts| ==> ts[j].0 != ts[i].0
    ensures ts[i].0 in Collect(ts) && Collect(ts)[ts[i].0] == ts[i].1
  {
    if i < |ts| - 1 {
      var init := ts[..|ts| - 1];
      assert forall j :: 0 <= j < |init| ==> init[j] == ts[j];
      CollectLastWins(init, i);
    }
  }

  /** The index has a key exactly for each resource held by some reachable vault. */
  lemma IndexKeys(store: Store, validate: Validator, component: Address)
    requires WalkSucceeds(store, validate, component)
    ensures var index := AccountVaults(store, validate, component).value;
            var vids := ReachableVaults(store, validate, component);
            forall a :: a in index <==> exists j :: 0 <= j < |vids| && Holds(store, component, vids[j], a)
  {
    var root := validate(store.components[component]).value;
    var vids := ReachableVaults(store, validate, component);
    var ts := LazyMapsInfo(store, validate, component, root.lazyMaps).value;
    var index := AccountVaults(store, validate, component).value;
    assert index == Collect(ts);
    forall a ensures a in index <==> exists j :: 0 <= j < |vids| && Holds(store, component, vids[j], a) {
      if a in index {
        var j :| 0 <= j < |ts| && ts[j].0 == a;
        assert VaultInfo(store, component, vids[j]) == Ok(ts[j]);
      }
      if j :| 0 <= j < |vids| && Holds(store, component, vids[j], a) {
        assert VaultInfo(store, component, vids[j]) == Ok(ts[j]);
        assert ts[j].0 == a;
      }
    }
  }

  /** For the last reachable vault holding `resource`, the index reports exactly
      what the ledger says that vault holds: its amount for a fungible
      resource, its ids for a non-fungible one. */
  lemma IndexKeepsLastVault(store: Store, validate: Validator, component: Address, j: nat, resource: Address)
    requires WalkSucceeds(store, validate, component)
    requires j < |ReachableVaults(store, validate, component)|
    requires Holds(store, component, ReachableVaults(store, validate, component)[j], resource)
    requires forall k :: j < k < |ReachableVaults(store, validate, component)| ==>
               !Holds(store, component, ReachableVaults(store, validate, component)[k], resource)
    ensures var index := AccountVaults(store, validate, component).value;
            var vault := store.vaults[(component, ReachableVaults(store, validate, component)[j])];
            && resource in index
            && resource in store.resourceDefs
            && (store.resourceDefs[resource].Fungible? ==> index[resource] == Amount(vault.amount))
            && (store.resourceDefs[resource].NonFungible? ==> index[resource] == NonFungibleKeys(vault.nonFungibleIds.value))
  {
    var root := validate(store.components[component]).value;
    var vids := ReachableVaults(store, validate, component);
    var ts := LazyMapsInfo(store, validate, component, root.lazyMaps).value;
    assert AccountVaults(store, validate, component).value == Collect(ts);
    assert VaultResolves(store, component, vids[j]);
    assert VaultInfo(store, component, vids[j]) == Ok(ts[j]);
    forall k | j < k < |ts| ensures ts[k].0 != ts[j].0 {
      assert VaultInfo(store, component, vids[k]) == Ok(ts[k]);
    }
    CollectLastWins(ts, j);
  }

  /** A root state that references no lazy map gives an empty index, whatever
      vaults it references directly. */
  lemma NoLazyMapsNoHoldings(store: Store, validate: Validator, component: Address, vids: seq<Vid>)
    requires component in store.components
    requires validate(store.components[component]) == Some(ValidatedData([], vids))
    ensures AccountVaults(store, validate, component) == Ok(map[])
  {
  }

  /** Replacing the root state by one that references the same lazy maps but
      other vaults leaves the result unchanged: vaults referenced directly by
      the root state are never reported. */
  lemma RootVaultsIgnored(store: Store, validate: Validator, component: Address, state: Bytes)
    requires component in store.components
    requires validate(store.components[component]).Some? && validate(state).Some?
    requires validate(state).value.lazyMaps == validate(store.components[component]).value.lazyMaps
    ensures AccountVaults(store.(components := store.components[component := state]), validate, component)
            == AccountVaults(store, validate, component)
  {
    var comps := store.components[component := state];
    LazyMapsInfoIgnoresComponents(store, validate, component, validate(state).value.lazyMaps, comps);
  }

  lemma {:induction false} VaultsInfoIgnoresComponents(store: Store, component: Address, vids: seq<Vid>,
                                                      comps: map<Address, Bytes>)
    ensures VaultsInfo(store.(components := comps), component, vids) == VaultsInfo(store, component, vids)
  {
    if vids != [] {
      VaultsInfoIgnoresComponents(store, component, vids[1..], comps);
    }
  }

  lemma {:induction false} EntriesInfoIgnoresComponents(store: Store, validate: Validator, component: Address,
                                                       entries: seq<Entry>, comps: map<Address, Bytes>)
    ensures EntriesInfo(store.(components := comps), validate, component, entries)
            == EntriesInfo(store, validate, component, entries)
  {
    if entries != [] {
      if validate(entries[0].data).Some? {
        VaultsInfoIgnoresComponents(store, component, validate(entries[0].data).value.vaults, comps);
      }
      EntriesInfoIgnoresComponents(store, validate, component, entries[1..], comps);
    }
  }

  lemma {:induction false} LazyMapsInfoIgnoresComponents(store: Store, validate: Validator, component: Address,
                                                        mids: seq<Mid>, comps: map<Address, Bytes>)
    ensures LazyMapsInfo(store.(components := comps), validate, component, mids)
            == LazyMapsInfo(store, validate, component, mids)
  {
    if mids != [] {
      if (component, mids[0]) in store.lazyMaps {
        EntriesInfoIgnoresComponents(store, validate, component, store.lazyMaps[(component, mids[0])], comps);
      }
      LazyMapsInfoIgnoresComponents(store, validate, component, mids[1..], comps);
    }
  }
}
