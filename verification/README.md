# scrypto-unit: resource introspection and environment bookkeeping

This project models the two parts of the `scrypto_unit` test harness that do
work of their own, over an abstract ledger:

- **Resource introspection.** The harness validates a component's root state and
  takes the lazy maps it references. It fetches each lazy map, validates every
  entry's value and takes the vaults each entry references. Each vault becomes a
  pair of the vault's resource address and its `Contents`: `Amount` for a fungible
  resource, `NonFungibleKeys` for a non-fungible one. The pairs are folded into an
  index from resource address to contents, and a later pair overwrites an earlier
  one for the same address. Two queries read the index:
  - the fungible amount of a resource;
  - the non-fungible keys of a resource.
  
  Each query gives zero or nothing when the resource is absent, and panics when
  the resource has the other kind.
- **Environment bookkeeping.** `TestEnv` keeps a name table of packages and one of
  users, each with a current entry. The first package published and the first
  user created become current. `using_package` and `acting_as` switch the current
  entry. The lookups panic on an unknown name or a missing current entry.

The ledger is a value of `Ledger.Store`, holding:
- component states;
- lazy-map entry lists in visiting order;
- vaults;
- resource kinds.

The state validator is a parameter of type `Ledger.Validator`. Every `unwrap`
and `panic!` of the harness is a `Base.Result` outcome of `Panic(reason)`.

Files:
- `base.dfy`: bytes, addresses, panics.
- `ledger.dfy`: the store.
- `introspection.dfy`: the walk, the fold and their properties.
- `queries.dfy`: the two queries, as loops.
- `environment.dfy`: `TestEnv` as a class.
- `scenarios.dfy`: worked examples on concrete ledgers.

The walk is specified against reference definitions that involve no `Result`:
- `ReachableVaults` lists the vault references in visiting order. It only takes
  vaults found in entries of the root's lazy maps.
- `WalkSucceeds` states that every lookup and validation on the way succeeds.

Each step of the walk is proved to succeed exactly when its part of
`WalkSucceeds` holds. When it succeeds, it yields the resolution of exactly those
vault references, position by position (`ResolvedTo`).

## Model

| member | source | states |
|---|---|---|
| `Introspection.VaultInfo` | src/lib.rs:461-474 | Succeeds exactly when the vault, its resource definition and (for a non-fungible resource) its id list exist. It then returns the vault's own resource address and contents matching the resource's kind: `Amount(vault.amount)` for fungible, `NonFungibleKeys(ids)` for non-fungible. |
| `Introspection.VaultsInfo` | src/lib.rs:487-491 | Resolving a list of vault references succeeds exactly when every reference resolves. It then yields one tuple per reference, equal position by position to that vault's resolution. |
| `Introspection.EntriesInfo` | src/lib.rs:482-493 | Walking a lazy map's entries succeeds exactly when every entry validates and every vault they reference resolves. It then yields exactly one tuple per vault reference, in entry order. Its length is the total of the per-entry vault counts. |
| `Introspection.LazyMapInfo` | src/lib.rs:476-494 | Walking one lazy map succeeds exactly when the map exists and its entries walk. The result is the resolution of the map's entry vaults in order. |
| `Introspection.LazyMapsInfo` | src/lib.rs:553-556 | Walking a list of lazy maps succeeds exactly when each map walks. The result resolves their vault references, concatenated in map order. |
| `Introspection.Collect` | src/lib.rs:557 | The fold's keys are exactly the addresses in the tuple list. Each value is the contents of some tuple for that key. |
| `Introspection.CollectLastWins` | src/lib.rs:557 | The fold maps an address to the contents of the last tuple carrying it, so two vaults of one resource overwrite rather than add. |
| `Introspection.AccountVaults` | src/lib.rs:548-558 | Panics with `ComponentNotFound` on an unknown component. Succeeds exactly when the whole walk does, so a missing component, lazy map, vault or resource definition, or a rejected blob, gives a panic and never a partial map. Every indexed contents agrees with its resource's kind. |
| `Introspection.IndexKeys` | src/lib.rs:548-558 | The index has a key exactly for each resource held by some vault reached through the root's lazy maps. |
| `Introspection.IndexKeepsLastVault` | src/lib.rs:548-558 | For the last reached vault holding a resource, the index holds that vault's amount if the resource is fungible and its ids if it is non-fungible. |
| `Introspection.NoLazyMapsNoHoldings` | src/lib.rs:552-556 | A root state with no lazy maps gives the empty index, whatever vaults it references directly. |
| `Introspection.RootVaultsIgnored` | src/lib.rs:552-556 | Replacing the root state by one with the same lazy maps and other direct vaults leaves the result unchanged. |
| `Queries.GetAmountForRd` | src/lib.rs:515-531 | Passes on a walk panic. Otherwise: absent resource gives 0, `Amount(a)` gives `a`, and `NonFungibleKeys` gives a kind-mismatch panic. It panics exactly when the resource is indexed and non-fungible in the ledger. |
| `Queries.GetNonFungibleKeysForRd` | src/lib.rs:534-546 | Passes on a walk panic. Otherwise: absent resource gives the empty sequence, `NonFungibleKeys(k)` gives `k`, and `Amount` gives a kind-mismatch panic. It panics exactly when the resource is indexed and fungible in the ledger. |
| `Environment.TestEnv.constructor` | src/lib.rs:64-76 | Starts with empty tables and no current user or package. |
| `Environment.TestEnv.PublishPackage` | src/lib.rs:115-126 | Inserts the name, overwriting any entry of that name. Sets the current package only if none was set. Keeps the invariant that a current entry exists exactly when its table is non-empty. |
| `Environment.TestEnv.GetPackage` | src/lib.rs:151-156 | Returns the package of that name, and panics when the name is unknown. |
| `Environment.TestEnv.UsingPackage` | src/lib.rs:181-186 | Makes the named package current. On an unknown name it panics and changes nothing. |
| `Environment.TestEnv.CreateUser` | src/lib.rs:206-221 | Inserts the user built from the fresh key and account, and returns it. Sets the current user only if none was set. Keeps the invariant. |
| `Environment.TestEnv.GetUser` | src/lib.rs:243-248 | Returns the user of that name, and panics when the name is unknown. |
| `Environment.TestEnv.ActingAs` | src/lib.rs:272-277 | Makes the named user current. On an unknown name it panics and changes nothing. |
| `Environment.TestEnv.GetCurrentUser` | src/lib.rs:297-302 | Returns the current user. In a valid environment it panics exactly when no user was created. |
| `Environment.TestEnv.GetCurrentPackage` | src/lib.rs:323-328 | Returns the current package. In a valid environment it panics exactly when no package was published. |
| `Environment.FirstUserIsDefault` | src/lib.rs:206-277 | The first user created stays current after a second one is created, and `acting_as` the second makes it current. |
| `Environment.RepublishKeepsCurrent` | src/lib.rs:115-126 | Republishing under the current package's name changes the table entry but not the current package. |
| `Environment.FreshEnvironmentPanics` | src/lib.rs:151-328 | In a fresh environment every name lookup and both current-entry getters panic. |
| `Scenarios.TwoVaultIndex` | src/lib.rs:548-558 | An account with one lazy-map entry referencing 500 tokens and badges #1 and #3 has the index `{token: Amount(500), badge: NonFungibleKeys([#1, #3])}`. A vault referenced only by the root state is absent from it. |
| `Scenarios.DuplicateTokenIndex` | src/lib.rs:553-557 | Two vaults of the same token, holding 500 and then 700, give `Amount(700)`, not 1200. |
| `Scenarios.TwoVaultQueries` | src/lib.rs:515-546 | On that account: 500 tokens, badges [#1, #3], a mismatch panic for the amount of badges, 0 for an absent resource, and a panic for an unknown account. |

## Left out

- Transaction construction and execution are not modelled: `new_with_tracing`, `create_token`, `call_function`, `call_method` and `transfer_resource` (src/lib.rs:79-91, 345-459, 579-604). They are thin wrappers over the transaction executor and builder, whose behaviour lies outside this repository. `new` is modelled only for the bookkeeping fields it initialises.
- `return_of_call_function` and `return_of_call_method` are not modelled. Their result comes from SBOR decoding, which lies outside this repository.
- The state validator's internals (SBOR decoding) are not modelled. It is the parameter `validate`, which either rejects a blob or yields its lazy-map and vault references.
- The substate store's internals are not modelled. The store is the map-valued `Store`, and a vault is what the ledger reports about it: resource address, amount and, when it can list them, non-fungible ids.
- Hash-map iteration order is not modelled. Lazy-map entries are visited in the order the store lists them. The queries scan the index in an arbitrary order chosen by `:|`, and nothing depends on that order.
- `Decimal` is modelled as `int`. No arithmetic is done on it here.
- The text of panic messages is not modelled. Both kind-mismatch panics are the same `KindMismatch`, matching the source's shared message.
- The queries and `AccountVaults` take the store and validator as parameters. In the source they read the executor's ledger through `self`; they touch no bookkeeping field.
- `Environment.TestEnv.PublishPackage`: the executor is not modelled, so the package address it publishes is a parameter. The panic when publishing fails is not modelled.
- `Environment.TestEnv.CreateUser`: the key and account the executor creates are parameters. Their freshness is not modelled.
- `get_user` returns a reference into the table; the model returns the value.
