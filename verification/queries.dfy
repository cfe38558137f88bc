/** The two queries over the resource index of a component. Each builds the
    index afresh, then scans its entries in no particular order for the
    requested resource. */
module Queries {
  import opened Base
  import opened Ledger
  import opened Introspection

  /** The fungible amount of `resource` held by the component: zero when the
      index has no entry for it, a panic when the resource is non-fungible. */
  method GetAmountForRd(store: Store, validate: Validator, component: Address, resource: Address)
    returns (r: Result<int>)
    ensures AccountVaults(store, validate, component).Panic? ==>
              r == Panic(AccountVaults(store, validate, component).reason)
    ensures AccountVaults(store, validate, component).Ok? ==>
              var index := AccountVaults(store, validate, component).value;
              && (resource !in index ==> r == Ok(0))
              && (resource in index && index[resource].Amount? ==> r == Ok(index[resource].amount))
              && (resource in index && index[resource].NonFungibleKeys? ==> r == Panic(KindMismatch(resource)))
              && (r.Panic? <==> resource in index && store.resourceDefs[resource].NonFungible?)
  {
    var walk := AccountVaults(store, validate, component);
    if walk.Panic? {
      return Panic(walk.reason);
    }
    var index := walk.value;
    var remaining := index.Keys;
    while remaining != {}
      invariant remaining <= index.Keys
      invariant resource in index ==> resource in remaining
      decreases remaining
    {
      var address :| address in remaining;
      if address == resource {
        match index[address]
        case Amount(amount) => return Ok(amount);
        case NonFungibleKeys(_) => return Panic(KindMismatch(address));
      }
      remaining := remaining - {address};
    }
    return Ok(0);
  }

  /** The non-fungible keys of `resource` held by the component: none when the
      index has no entry for it, a panic when the resource is fungible. */
  method GetNonFungibleKeysForRd(store: Store, validate: Validator, component: Address, resource: Address)
    returns (r: Result<seq<NonFungibleKey>>)
    ensures AccountVaults(store, validate, component).Panic? ==>
              r == Panic(AccountVaults(store, validate, component).reason)
    ensures AccountVaults(store, validate, component).Ok? ==>
              var index := AccountVaults(store, validate, component).value;
              && (resource !in index ==> r == Ok([]))
              && (resource in index && index[resource].NonFungibleKeys? ==> r == Ok(index[resource].keys))
              && (resource in index && index[resource].Amount? ==> r == Panic(KindMismatch(resource)))
              && (r.Panic? <==> resource in index && store.resourceDefs[resource].Fungible?)
  {
    var walk := AccountVaults(store, validate, component);
    if walk.Panic? {
      return Panic(walk.reason);
    }
    var index := walk.value;
    var remaining := index.Keys;
    while remaining != {}
      invariant remaining <= index.Keys
      invariant resource in index ==> resource in remaining
      decreases remaining
    {
      var address :| address in remaining;
      if address == resource {
        match index[address]
        case NonFungibleKeys(keys) => return Ok(keys);
        case Amount(_) => return Panic(KindMismatch(address));
      }
      remaining := remaining - {address};
    }
    return Ok([]);
  }
}
