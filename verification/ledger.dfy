/** The part of the ledger that the introspection walk reads, as plain maps.
    The substate store and the state validator are external collaborators: the
    store is a value of `Store` and the validator a function parameter. */
module Ledger {
  import opened Base

  /** Reference to a lazy map owned by a component. */
  datatype Mid = Mid(id: nat)

  /** Reference to a vault owned by a component. */
  datatype Vid = Vid(id: nat)

  /** Identifier of one non-fungible unit. */
  datatype NonFungibleKey = NonFungibleKey(id: Bytes)

  /** The kind tag of a resource definition. */
  datatype ResourceType = Fungible(divisibility: nat) | NonFungible

  /** What the ledger reports about one vault: its resource address, its amount,
      and its non-fungible ids, which are `None` when the ledger cannot list them. */
  datatype Vault = Vault(resourceAddress: Address, amount: int, nonFungibleIds: Option<seq<NonFungibleKey>>)

  /** One entry of a lazy map: a key blob and a value blob. */
  datatype Entry = Entry(key: Bytes, data: Bytes)

  /** What the validator extracts from a state blob: the lazy maps and the
      vaults it references. */
  datatype ValidatedData = ValidatedData(lazyMaps: seq<Mid>, vaults: seq<Vid>)

  /** The state validator; `None` means it rejected the blob. */
  type Validator = Bytes -> Option<ValidatedData>

  /** The substate store. Lazy-map entries are listed in the order in which
      the walk visits them. */
  datatype Store = Store(
    components: map<Address, Bytes>,
    lazyMaps: map<(Address, Mid), seq<Entry>>,
    vaults: map<(Address, Vid), Vault>,
    resourceDefs: map<Address, ResourceType>)
}
