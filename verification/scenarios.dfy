/** Concrete ledgers on which the walk and the queries are worked out. */
module Scenarios {
  import opened Base
  import opened Ledger
  import opened Introspection
  import opened Queries

  const Account := Address(1)
  const Token := Address(10)
  const Badge := Address(11)
  const Key1 := NonFungibleKey([1])
  const Key3 := NonFungibleKey([3])

  /** The validator of these ledgers: blob [0] is a root state referencing lazy
      map 0 and, directly, vault 9; blob [1] is an entry referencing vaults 1
      and 2; blob [2] is an entry referencing vault 3; anything else is
      rejected. */
  function Validate(data: Bytes): Option<ValidatedData> {
    if data == [0] then Some(ValidatedData([Mid(0)], [Vid(9)]))
    else if data == [1] then Some(ValidatedData([], [Vid(1), Vid(2)]))
    else if data == [2] then Some(ValidatedData([], [Vid(3)]))
    else None
  }

  /** An account with one lazy map holding one entry whose state references a
      vault of 500 tokens and a vault with badges #1 and #3; a third vault of
      tokens, referenced only by the root state, is never visited. */
  function TwoVaultLedger(): Store {
    Store(
      map[Account := [0]],
      map[(Account, Mid(0)) := [Entry([7], [1])]],
      map[(Account, Vid(1)) := Vault(Token, 500, None),
          (Account, Vid(2)) := Vault(Badge, 2, Some([Key1, Key3])),
          (Account, Vid(9)) := Vault(Token, 40, None)],
      map[Token := Fungible(18), Badge := NonFungible])
  }

  /** The same account whose lazy map gains a second entry with another vault
      of 700 tokens, visited after the first. */
  function DuplicateTokenLedger(): Store {
    var store := TwoVaultLedger();
    store.(lazyMaps := map[(Account, Mid(0)) := [Entry([7], [1]), Entry([8], [2])]],
           vaults := store.vaults[(Account, Vid(3)) := Vault(Token, 700, None)])
  }

  lemma VaultsCons(store: Store, v: Vid, vs: seq<Vid>, t: (Address, Contents), ts: seq<(Address, Contents)>)
    requires VaultInfo(store, Account, v) == Ok(t)
    requires VaultsInfo(store, Account, vs) == Ok(ts)
    ensures VaultsInfo(store, Account, [v] + vs) == Ok([t] + ts)
  {
  }

  lemma EntriesCons(store: Store, e: Entry, es: seq<Entry>, d: ValidatedData,
                    head: seq<(Address, Contents)>, tail: seq<(Address, Contents)>)
    requires Validate(e.data) == Some(d)
    requires VaultsInfo(store, Account, d.vaults) == Ok(head)
    requires EntriesInfo(store, Validate, Account, es) == Ok(tail)
    ensures EntriesInfo(store, Validate, Account, [e] + es) == Ok(head + tail)
  {
  }

  lemma TwoVaultEntry(store: Store)
    requires (Account, Vid(1)) in store.vaults && store.vaults[(Account, Vid(1))] == Vault(Token, 500, None)
    requires (Account, Vid(2)) in store.vaults && store.vaults[(Account, Vid(2))] == Vault(Badge, 2, Some([Key1, Key3]))
    requires store.resourceDefs == TwoVaultLedger().resourceDefs
    ensures VaultsInfo(store, Account, [Vid(1), Vid(2)])
            == Ok([(Token, Amount(500)), (Badge, NonFungibleKeys([Key1, Key3]))])
    ensures EntriesInfo(store, Validate, Account, [Entry([7], [1])])
            == Ok([(Token, Amount(500)), (Badge, NonFungibleKeys([Key1, Key3]))])
  {
    var one: Bytes := [1];
    var t1, t2 := (Token, Amount(500)), (Badge, NonFungibleKeys([Key1, Key3]));
    assert Validate(one) == Some(ValidatedData([], [Vid(1), Vid(2)]));
    VaultsCons(store, Vid(2), [], t2, []);
    assert [Vid(2)] + [] == [Vid(2)] && [t2] + [] == [t2];
    VaultsCons(store, Vid(1), [Vid(2)], t1, [t2]);
    assert [Vid(1)] + [Vid(2)] == [Vid(1), Vid(2)] && [t1] + [t2] == [t1, t2];
    assert EntriesInfo(store, Validate, Account, []) == Ok([]);
    EntriesCons(store, Entry([7], one), [], ValidatedData([], [Vid(1), Vid(2)]), [t1, t2], []);
    assert [Entry([7], one)] + [] == [Entry([7], one)] && [t1, t2] + [] == [t1, t2];
  }

  /** An account whose root state references the single lazy map `mid`. */
  lemma OneLazyMap(store: Store, mid: Mid, ts: seq<(Address, Contents)>)
    requires Account in store.components && Validate(store.components[Account]) == Some(ValidatedData([mid], [Vid(9)]))
    requires (Account, mid) in store.lazyMaps
    requires EntriesInfo(store, Validate, Account, store.lazyMaps[(Account, mid)]) == Ok(ts)
    ensures AccountVaults(store, Validate, Account) == Ok(Collect(ts))
  {
    assert [mid][1..] == [];
    assert LazyMapsInfo(store, Validate, Account, []) == Ok([]);
    assert ts + [] == ts;
  }

  lemma TwoVaultIndex()
    ensures AccountVaults(TwoVaultLedger(), Validate, Account)
            == Ok(map[Token := Amount(500), Badge := NonFungibleKeys([Key1, Key3])])
  {
    var store := TwoVaultLedger();
    var zero: Bytes := [0];
    assert Validate(zero) == Some(ValidatedData([Mid(0)], [Vid(9)]));
    TwoVaultEntry(store);
    var ts := [(Token, Amount(500)), (Badge, NonFungibleKeys([Key1, Key3]))];
    OneLazyMap(store, Mid(0), ts);
    assert ts[..1] == [(Token, Amount(500))];
    assert Collect(ts) == map[Token := Amount(500), Badge := NonFungibleKeys([Key1, Key3])];
  }

  lemma DuplicateTokenEntries()
    ensures EntriesInfo(DuplicateTokenLedger(), Validate, Account, [Entry([7], [1]), Entry([8], [2])])
            == Ok([(Token, Amount(500)), (Badge, NonFungibleKeys([Key1, Key3])), (Token, Amount(700))])
  {
    var store := DuplicateTokenLedger();
    var one: Bytes := [1];
    var two: Bytes := [2];
    var t3 := (Token, Amount(700));
    var first := [(Token, Amount(500)), (Badge, NonFungibleKeys([Key1, Key3]))];
    assert Validate(two) == Some(ValidatedData([], [Vid(3)]));
    VaultsCons(store, Vid(3), [], t3, []);
    assert [Vid(3)] + [] == [Vid(3)] && [t3] + [] == [t3];
    assert EntriesInfo(store, Validate, Account, []) == Ok([]);
    EntriesCons(store, Entry([8], two), [], ValidatedData([], [Vid(3)]), [t3], []);
    assert [Entry([8], two)] + [] == [Entry([8], two)];
    TwoVaultEntry(store);
    assert Validate(one) == Some(ValidatedData([], [Vid(1), Vid(2)]));
    EntriesCons(store, Entry([7], one), [Entry([8], two)], ValidatedData([], [Vid(1), Vid(2)]), first, [t3]);
    assert [Entry([7], one)] + [Entry([8], two)] == [Entry([7], [1]), Entry([8], [2])];
    assert first + [t3] == [(Token, Amount(500)), (Badge, NonFungibleKeys([Key1, Key3])), (Token, Amount(700))];
  }

  /** Two vaults of the same resource: the later one overwrites the earlier,
      the amounts are not added. */
  lemma DuplicateTokenIndex()
    ensures AccountVaults(DuplicateTokenLedger(), Validate, Account)
            == Ok(map[Token := Amount(700), Badge := NonFungibleKeys([Key1, Key3])])
  {
    var store := DuplicateTokenLedger();
    var zero: Bytes := [0];
    assert Validate(zero) == Some(ValidatedData([Mid(0)], [Vid(9)]));
    var ts := [(Token, Amount(500)), (Badge, NonFungibleKeys([Key1, Key3])), (Token, Amount(700))];
    DuplicateTokenEntries();
    OneLazyMap(store, Mid(0), ts);
    DuplicateTokenCollect(ts);
  }

  lemma DuplicateTokenCollect(ts: seq<(Address, Contents)>)
    requires ts == [(Token, Amount(500)), (Badge, NonFungibleKeys([Key1, Key3])), (Token, Amount(700))]
    ensures Collect(ts) == map[Token := Amount(700), Badge := NonFungibleKeys([Key1, Key3])]
  {
  }

  /** The queries on the two-vault account: 500 tokens, badges #1 and #3, a
      kind-mismatch panic when asking for an amount of badges, and a panic,
      not an empty answer, for an account the ledger does not know. */
  method TwoVaultQueries()
    returns (tokens: Result<int>, badges: Result<seq<NonFungibleKey>>, badgeAmount: Result<int>,
             unknown: Result<int>, absent: Result<int>)
    ensures tokens == Ok(500)
    ensures badges == Ok([Key1, Key3])
    ensures badgeAmount == Panic(KindMismatch(Badge))
    ensures unknown == Panic(ComponentNotFound(Address(2)))
    ensures absent == Ok(0)
  {
    var store := TwoVaultLedger();
    TwoVaultIndex();
    tokens := GetAmountForRd(store, Validate, Account, Token);
    badges := GetNonFungibleKeysForRd(store, Validate, Account, Badge);
    badgeAmount := GetAmountForRd(store, Validate, Account, Badge);
    unknown := GetAmountForRd(store, Validate, Address(2), Token);
    absent := GetAmountForRd(store, Validate, Account, Address(12));
  }
}
