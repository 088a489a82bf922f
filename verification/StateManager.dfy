/** The fuzzer's in-memory chain state: objects that are updated in place, and snapshots that are
    plain data.  Addresses, keys and accounts are encoded to text and back by invertible codecs. */
module StateManager {
  import opened Common

  // ------------------------------------------------------------------ plain data

  /** What toJSON keeps of a state manager. */
  datatype Contents = Contents(known: seq<Address>, entries: map<Address, Entry>)

  datatype Op =
    | GetAccount(address: Address)
    | PutAccount(address: Address, account: AccountValue)
    | ModifyAccountFields(address: Address, fields: AccountFields)
    | PutContractCode(address: Address, code: Bytes)
    | PutContractStorage(address: Address, key: Bytes, value: Bytes)
    | ClearContractStorage(address: Address)
    | DeleteAccount(address: Address)
    | Checkpoint
    | Commit
    | Revert

  datatype State = State(contents: Contents, ckpt: Option<Contents>)

  const FRESH_STATE := State(Contents([], map[]), None)

  function WithStorage(c: Contents, a: Address, storage: map<Bytes, Bytes>): Contents
    requires a in c.entries
  {
    c.(entries := c.entries[a := c.entries[a].(storage := storage)])
  }

  function WithAccount(c: Contents, a: Address, fields: AccountFields): Contents
    requires a in c.entries
  {
    c.(entries := c.entries[a := c.entries[a].(account := WithFields(c.entries[a].account, fields))])
  }

  function Update(c: Contents, op: Op): Contents
    requires !op.Checkpoint? && !op.Commit? && !op.Revert?
  {
    var entries := c.entries;
    match op
    case GetAccount(a) => if a in entries then c else c.(entries := entries[a := BLANK])
    case PutAccount(a, account) => c.(entries := entries[a := Entry(account, [], map[])])
    case ModifyAccountFields(a, fields) =>
      if a in entries then WithAccount(c, a, fields) else c
    case PutContractCode(a, code) => c.(entries := entries[a := Entry(EMPTY_ACCOUNT, code, map[])])
    case PutContractStorage(a, key, value) =>
      var entry := if a in entries then entries[a] else BLANK;
      c.(entries := entries[a := entry.(storage := entry.storage[key := value])])
    case ClearContractStorage(a) =>
      if a in entries then WithStorage(c, a, map[]) else c
    case DeleteAccount(a) => c.(entries := entries - {a})
  }

  /** The accounts at all these addresses change alike, being one object. */
  function Shared(c: Contents, sharers: set<Address>, fields: AccountFields): Contents
    requires sharers <= c.entries.Keys
  {
    c.(entries := map b | b in c.entries ::
         if b in sharers then c.entries[b].(account := WithFields(c.entries[b].account, fields)) else c.entries[b])
  }

  /** Each field given replaces that field of the account, and the others stay; of two changes the
      later prevails field by field. */
  lemma FieldsPrevail(v: AccountValue, f: AccountFields, g: AccountFields)
    ensures WithFields(v, AccountFields(None, None, None, None)) == v
    ensures v == WithFields(EMPTY_ACCOUNT, AccountFields(Some(v.nonce), Some(v.balance), Some(v.storageRoot),
                                                         Some(v.codeHash)))
    ensures WithFields(WithFields(v, f), g)
            == WithFields(v, AccountFields(if g.nonce.Some? then g.nonce else f.nonce,
                                           if g.balance.Some? then g.balance else f.balance,
                                           if g.storageRoot.Some? then g.storageRoot else f.storageRoot,
                                           if g.codeHash.Some? then g.codeHash else f.codeHash))
  {
  }

  lemma SharedDiffers(c: Contents, sharers: set<Address>, a: Address, fields: AccountFields)
    requires a in sharers && sharers <= c.entries.Keys
    requires forall b :: b in sharers ==> c.entries[b].account == c.entries[a].account
    ensures Shared(c, sharers, fields) == WithAccount(c, a, fields) <==>
            (sharers == {a} || WithFields(c.entries[a].account, fields) == c.entries[a].account)
  {
    var all, one := Shared(c, sharers, fields).entries, WithAccount(c, a, fields).entries;
    if b :| b in sharers && b != a {
      assert all[b] == one[b] <==> WithFields(c.entries[a].account, fields) == c.entries[a].account;
    }
    if sharers == {a} || WithFields(c.entries[a].account, fields) == c.entries[a].account {
      assert all == one;
    }
  }

  lemma StoringUpdates(c: Contents, a: Address, key: Bytes, value: Bytes)
    ensures var ready := Update(c, Op.GetAccount(a));
            a in ready.entries
            && Update(c, Op.PutContractStorage(a, key, value))
              == WithStorage(ready, a, ready.entries[a].storage[key := value])
  {
  }

  function SlotIn(c: Contents, a: Address, key: Bytes): Bytes {
    if a in c.entries && key in c.entries[a].storage then c.entries[a].storage[key] else []
  }

  /** Reverting without a checkpoint empties the state before it throws. */
  function Step(s: State, op: Op): State {
    match op
    case Checkpoint => State(s.contents, Some(s.contents))
    case Commit => s
    case Revert => State(if s.ckpt.Some? then s.ckpt.value else Contents([], map[]), s.ckpt)
    case _ => s.(contents := Update(s.contents, op))
  }

  function Run(s: State, ops: seq<Op>): State {
    if ops == [] then s else Step(Run(s, ops[..|ops| - 1]), ops[|ops| - 1])
  }

  lemma PutBack(entries: map<Address, Entry>, left: set<Address>, a: Address)
    requires a in left && left <= entries.Keys
    ensures entries - (left - {a}) == (entries - left)[a := entries[a]]
  {
  }

  // ------------------------------------------------------------------ objects

  class Account {
    var nonce: nat
    var balance: nat
    var storageRoot: Bytes
    var codeHash: Bytes

    constructor (v: AccountValue)
      ensures Value() == v
    {
      nonce, balance, storageRoot, codeHash := v.nonce, v.balance, v.storageRoot, v.codeHash;
    }

    function Value(): AccountValue
      reads this
    {
      AccountValue(nonce, balance, storageRoot, codeHash)
    }

    method Modify(fields: AccountFields)
      modifies this
      ensures Value() == WithFields(old(Value()), fields)
    {
      nonce := if fields.nonce.Some? then fields.nonce.value else nonce;
      balance := if fields.balance.Some? then fields.balance.value else balance;
      storageRoot := if fields.storageRoot.Some? then fields.storageRoot.value else storageRoot;
      codeHash := if fields.codeHash.Some? then fields.codeHash.value else codeHash;
    }
  }

  class SMData {
    var account: Account
    var code: Bytes
    var storage: map<Bytes, Bytes>

    constructor (account: Account)
      ensures this.account == account && code == [] && storage == map[]
    {
      this.account := account;
      code := [];
      storage := map[];
    }

    constructor Filled(entry: Entry)
      ensures Value() == entry && fresh(account)
    {
      account := new Account(entry.account);
      code := entry.code;
      storage := entry.storage;
    }

    function Value(): Entry
      reads this, account
    {
      Entry(account.Value(), code, storage)
    }
  }

  class FuzzStateManager {
    var known: seq<Address>
    var storage: map<Address, SMData>
    var ckpt: Option<Contents>
    ghost var accounts: map<Address, Account>   // which object stands where
    ghost var Repr: set<object>

    constructor ()
      ensures Valid() && Unshared() && fresh(Repr) && View() == FRESH_STATE
    {
      known, storage, ckpt := [], map[], None;
      accounts, Repr := map[], {this};
    }

    /** Every entry and its account belong to the manager, and no two addresses share an entry. */
    ghost predicate Valid()
      reads this, Repr
      ensures Valid() ==> this in Repr
    {
      && this in Repr
      && accounts.Keys == storage.Keys
      && (forall a :: a in storage ==> storage[a] in Repr && accounts[a] in Repr && storage[a].account == accounts[a])
      && (forall a, b :: a in storage && b in storage && a != b ==> storage[a] != storage[b])
    }

    /** No account object stands at two addresses; putAccount stores the object it is given. */
    ghost predicate Unshared()
      reads this
    {
      forall a, b :: a in accounts && b in accounts && a != b ==> accounts[a] != accounts[b]
    }

    function ToJSON(): Contents
      requires Valid()
      reads this, Repr
    {
      Contents(known, map a | a in storage :: storage[a].Value())
    }

    /** What toJSON gives, read off the entries one by one. */
    lemma Shows(entries: map<Address, Entry>)
      requires Valid() && entries.Keys == storage.Keys
      requires forall a :: a in storage ==> storage[a].Value() == entries[a]
      ensures ToJSON() == Contents(known, entries)
    {
      assert ToJSON().entries == entries;
    }

    ghost function View(): State
      requires Valid()
      reads this, Repr
    {
      State(ToJSON(), ckpt)
    }

    /** Puts an entry that is not yet the manager's at the address. */
    method Install(a: Address, data: SMData)
      requires Valid() && data !in Repr
      modifies this`storage, this`accounts, this`Repr
      ensures Valid() && Repr == old(Repr) + {data, data.account}
      ensures accounts == old(accounts)[a := data.account]
      ensures ToJSON() == Contents(known, old(ToJSON()).entries[a := data.Value()])
    {
      ghost var before := ToJSON().entries;
      storage, accounts := storage[a := data], accounts[a := data.account];
      Repr := Repr + {data, data.account};
      assert Valid();
      forall b | b in storage ensures storage[b].Value() == before[a := data.Value()][b] {
        if b != a { assert storage[b].Value() == before[b]; }
      }
      Shows(before[a := data.Value()]);
    }

    /** Puts a new entry, made of new objects, at the address. */
    method Place(a: Address, entry: Entry)
      requires Valid()
      modifies this`storage, this`accounts, this`Repr
      ensures Valid() && fresh(Repr - old(Repr)) && (old(Unshared()) ==> Unshared())
      ensures ToJSON() == Contents(known, old(ToJSON()).entries[a := entry])
      ensures a in accounts && accounts == old(accounts)[a := accounts[a]] && fresh(accounts[a]) && fresh(storage[a])
    {
      var data := new SMData.Filled(entry);
      Install(a, data);
    }

    /** Gives an unknown address a blank entry. */
    method EnsureEntry(a: Address)
      requires Valid()
      modifies this`storage, this`accounts, this`Repr
      ensures Valid() && fresh(Repr - old(Repr)) && (old(Unshared()) ==> Unshared())
      ensures a in accounts && accounts == old(accounts)[a := accounts[a]]
      ensures if a in old(accounts) then Repr == old(Repr) && accounts == old(accounts) && storage == old(storage)
              else fresh(accounts[a]) && fresh(storage[a])
      ensures ToJSON() == Update(old(ToJSON()), Op.GetAccount(a))
    {
      if a !in storage {
        Place(a, BLANK);
      }
    }

    /** Rebuilds the entries from plain data, out of new objects only. */
    method FromJSON(c: Contents)
      requires Valid()
      modifies this
      ensures Valid() && Unshared() && View() == State(c, old(ckpt)) && fresh(Repr - {this})
    {
      known, storage := c.known, map[];
      accounts, Repr := map[], {this};
      var left := c.entries.Keys;
      assert ToJSON() == Contents(c.known, c.entries - left);
      while left != {}
        modifies this`storage, this`accounts, this`Repr
        invariant left <= c.entries.Keys
        invariant Valid() && Unshared() && fresh(Repr - {this})
        invariant ToJSON() == Contents(c.known, c.entries - left)
        decreases left
      {
        var a :| a in left;
        PutBack(c.entries, left, a);
        Place(a, c.entries[a]);
        left := left - {a};
      }
      assert c.entries - {} == c.entries;
    }

    method Copy() returns (copy: FuzzStateManager)
      requires Valid()
      ensures copy.Valid() && copy.Unshared() && fresh(copy.Repr)
      ensures copy.View() == State(View().contents, None)
    {
      copy := new FuzzStateManager();
      copy.FromJSON(ToJSON());
    }

    method Checkpoint()
      requires Valid()
      modifies this`ckpt
      ensures Valid()
      ensures View() == Step(old(View()), Op.Checkpoint)
    {
      ckpt := Some(ToJSON());
    }

    /** Without a checkpoint the rebuild fails after it has emptied the state. */
    method Revert() returns (thrown: bool)
      requires Valid()
      modifies this
      ensures Valid() && Unshared() && fresh(Repr - {this})
      ensures View() == Step(old(View()), Op.Revert)
      ensures thrown == old(ckpt).None?
    {
      if ckpt.None? {
        known, storage := [], map[];
        accounts, Repr := map[], {this};
        return true;
      }
      FromJSON(ckpt.value);
      thrown := false;
    }

    /** Hands out the stored object itself, creating a blank entry for an unknown address. */
    method GetAccount(a: Address) returns (account: Account)
      requires Valid()
      modifies this`storage, this`accounts, this`Repr
      ensures Valid() && fresh(Repr - old(Repr)) && (old(Unshared()) ==> Unshared())
      ensures View() == Step(old(View()), Op.GetAccount(a))
      ensures accounts == old(accounts)[a := account]
      ensures if a in old(accounts) then accounts == old(accounts) else fresh(account)
    {
      EnsureEntry(a);
      account := storage[a].account;
    }

    /** Stores the given object, in a new entry without code or storage. */
    method PutAccount(a: Address, account: Account)
      requires Valid()
      modifies this`storage, this`accounts, this`Repr
      ensures Valid() && fresh(Repr - old(Repr) - {account})
      ensures View() == Step(old(View()), Op.PutAccount(a, account.Value()))
      ensures accounts == old(accounts)[a := account]
      ensures old(Unshared()) && account !in old(accounts).Values ==> Unshared()
    {
      var data := new SMData(account);
      Install(a, data);
    }

    /** The addresses that hold the account object of this one. */
    ghost function Sharers(a: Address): (sharers: set<Address>)
      requires Valid() && a in accounts
      reads this, Repr
      ensures a in sharers && sharers <= ToJSON().entries.Keys
      ensures forall b :: b in sharers ==> ToJSON().entries[b].account == ToJSON().entries[a].account
    {
      set b | b in accounts && accounts[b] == accounts[a]
    }

    /** Changes the account object in place, and nothing else.  Every entry that holds the object
        shows the change, so only this one changes exactly when no other holds it or the change is none. */
    method ModifyAccountFields(a: Address, fields: AccountFields) returns (rejected: bool)
      requires Valid()
      modifies if a in accounts then {accounts[a]} else {}
      ensures Valid()
      ensures rejected == (a !in accounts) && (rejected ==> ToJSON() == old(ToJSON()))
      ensures !rejected ==> accounts[a].Value() == WithFields(old(accounts[a].Value()), fields)
      ensures !rejected ==> ToJSON() == Shared(old(ToJSON()), old(Sharers(a)), fields)
      ensures View() == Step(old(View()), Op.ModifyAccountFields(a, fields)) <==>
              (!rejected && old(Sharers(a)) != {a} ==> accounts[a].Value() == old(accounts[a].Value()))
    {
      if a !in storage { return true; }
      SharedDiffers(ToJSON(), Sharers(a), a, fields);
      ModifyStored(a, fields);
      rejected := false;
    }

    method ModifyStored(a: Address, fields: AccountFields)
      requires Valid() && a in accounts
      modifies accounts[a]
      ensures Valid()
      ensures accounts[a].Value() == WithFields(old(accounts[a].Value()), fields)
      ensures ToJSON() == Shared(old(ToJSON()), old(Sharers(a)), fields)
    {
      ghost var after := Shared(ToJSON(), Sharers(a), fields).entries;
      storage[a].account.Modify(fields);
      forall b | b in storage ensures storage[b].Value() == after[b] {
        if accounts[b] != accounts[a] { assert storage[b].Value() == old(storage[b].Value()); }
      }
      Shows(after);
    }

    /** Looks the address object up among text keys, so it never finds an entry and always replaces it. */
    method PutContractCode(a: Address, value: Bytes)
      requires Valid()
      modifies this`storage, this`accounts, this`Repr
      ensures Valid() && fresh(Repr - old(Repr)) && (old(Unshared()) ==> Unshared())
      ensures a in accounts && accounts == old(accounts)[a := accounts[a]] && fresh(accounts[a])
      ensures View() == Step(old(View()), Op.PutContractCode(a, value))
    {
      Place(a, Entry(EMPTY_ACCOUNT, value, map[]));
    }

    method PutContractStorage(a: Address, key: Bytes, value: Bytes)
      requires Valid()
      modifies this`storage, this`accounts, this`Repr, if a in storage then {storage[a]} else {}
      ensures Valid() && fresh(Repr - old(Repr)) && (old(Unshared()) ==> Unshared())
      ensures a in accounts && accounts == old(accounts)[a := accounts[a]]
      ensures if a in old(accounts) then accounts == old(accounts) else fresh(accounts[a])
      ensures View() == Step(old(View()), Op.PutContractStorage(a, key, value))
    {
      StoringUpdates(ToJSON(), a, key, value);
      EnsureEntry(a);
      assert storage[a].storage == ToJSON().entries[a].storage;
      SetStorage(a, storage[a].storage[key := value]);
    }

    method SetStorage(a: Address, contents: map<Bytes, Bytes>)
      requires Valid() && a in storage
      modifies storage[a]
      ensures Valid()
      ensures ToJSON() == WithStorage(old(ToJSON()), a, contents)
    {
      ghost var before := ToJSON();
      storage[a].storage := contents;
      forall b | b in storage ensures storage[b].Value() == WithStorage(before, a, contents).entries[b] {
        if b != a { assert storage[b].Value() == old(storage[b].Value()); }
      }
      Shows(WithStorage(before, a, contents).entries);
    }

    method ClearContractStorage(a: Address)
      requires Valid()
      modifies if a in storage then {storage[a]} else {}
      ensures Valid()
      ensures View() == Step(old(View()), Op.ClearContractStorage(a))
    {
      if a in storage {
        SetStorage(a, map[]);
      }
    }

    method DeleteAccount(a: Address)
      requires Valid()
      modifies this`storage, this`accounts
      ensures Valid() && accounts == old(accounts) - {a}
      ensures View() == Step(old(View()), Op.DeleteAccount(a))
    {
      storage, accounts := storage - {a}, accounts - {a};
      assert ToJSON().entries == old(ToJSON()).entries - {a};
    }

    /** None is a rejected promise: the address is unknown. */
    method GetContractCode(a: Address) returns (code: Option<Bytes>)
      requires Valid()
      ensures var entries := View().contents.entries; code == if a in entries then Some(entries[a].code) else None
    {
      if a !in storage { return None; }
      code := Some(storage[a].code);
    }

    /** Storage that was never written reads as empty. */
    method GetContractStorage(a: Address, key: Bytes) returns (value: Bytes)
      requires Valid()
      ensures value == SlotIn(View().contents, a, key)
    {
      if a !in storage { return []; }
      if key !in storage[a].storage { return []; }
      value := storage[a].storage[key];
    }

    /** Runs one operation; accounts come in as new objects. */
    method Apply(op: Op)
      requires Valid() && Unshared()
      modifies Repr
      ensures Valid() && Unshared() && fresh(Repr - old(Repr))
      ensures View() == Step(old(View()), op)
    {
      match op {
        case GetAccount(a) => var _ := GetAccount(a);
        case PutAccount(a, value) =>
          var account := new Account(value);
          assert account !in old(accounts).Values;
          PutAccount(a, account);
        case ModifyAccountFields(a, fields) =>
          assert a in accounts ==> Sharers(a) == {a};
          var _ := ModifyAccountFields(a, fields);
        case PutContractCode(a, code) => PutContractCode(a, code);
        case PutContractStorage(a, key, value) => PutContractStorage(a, key, value);
        case ClearContractStorage(a) => ClearContractStorage(a);
        case DeleteAccount(a) => DeleteAccount(a);
        case Checkpoint => Checkpoint();
        case Commit =>
        case Revert => var _ := Revert();
      }
    }
  }
}
