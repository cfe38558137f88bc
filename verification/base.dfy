/** Values shared by every part of the model: bytes, addresses, and the panics
    that the harness raises with `unwrap` and `panic!`. */
module Base {

  newtype byte = x: int | 0 <= x < 256

  /** A serialized blob: a component state or a lazy-map entry value. */
  type Bytes = seq<byte>

  /** Address of a component, an account, a package or a resource definition.
      Only its identity matters. */
  datatype Address = Address(id: nat)

  datatype Option<+T> = None | Some(value: T)

  /** Why an operation panicked. Every `unwrap` on a missing ledger object and
      every explicit `panic!` of the harness becomes one of these. */
  datatype Failure =
    | ComponentNotFound(component: Address)
    | MalformedState
    | LazyMapNotFound
    | VaultNotFound
    | ResourceDefNotFound(resource: Address)
    | NonFungibleIdsUnavailable
      /** The query asked for the other kind of content than the resource holds. */
    | KindMismatch(resource: Address)
    | PackageNotFound(name: string)
    | UserNotFound(name: string)
    | NoCurrentUser
    | NoCurrentPackage

  /** The outcome of an operation that may panic. */
  datatype Result<+T> = Ok(value: T) | Panic(reason: Failure)
}
