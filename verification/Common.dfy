/** What several modules share: bytes, machine integers, accounts. */
module Common {

  datatype Option<+T> = None | Some(value: T)

  type Byte = b: nat | b < 256
  type Bytes = seq<Byte>

  const U32_LIMIT: nat := 0x1_0000_0000
  const U64_LIMIT: nat := 0x1_0000_0000_0000_0000

  function Min(a: nat, b: nat): nat { if a < b then a else b }

  function Zeros(n: nat): (s: Bytes)
    ensures |s| == n && forall i :: 0 <= i < n ==> s[i] == 0
  { seq(n, _ => 0) }

  lemma DropLastOfConcat<T>(s: seq<T>, t: seq<T>)
    requires t != []
    ensures var all := s + t; all[..|all| - 1] == s + t[..|t| - 1] && all[|all| - 1] == t[|t| - 1]
  {
  }

  lemma DropLastOfAppend<T>(s: seq<T>, x: T)
    ensures var all := s + [x]; all[..|all| - 1] == s && all[..|s|] == s && all[|all| - 1] == x
  {
  }

  /** A 20-byte chain address. */
  type Address = Bytes

  // ------------------------------------------------------------------ accounts

  datatype AccountValue = AccountValue(nonce: nat, balance: nat, storageRoot: Bytes, codeHash: Bytes)

  const EMPTY_ACCOUNT := AccountValue(0, 0, [], [])

  datatype AccountFields = AccountFields(nonce: Option<nat>, balance: Option<nat>, storageRoot: Option<Bytes>,
                                         codeHash: Option<Bytes>)

  /** An account with its code and its storage slots. */
  datatype Entry = Entry(account: AccountValue, code: Bytes, storage: map<Bytes, Bytes>)

  const BLANK := Entry(EMPTY_ACCOUNT, [], map[])

  function Or<T>(field: Option<T>, current: T): T {
    match field
    case Some(value) => value
    case None => current
  }

  function WithFields(a: AccountValue, fields: AccountFields): AccountValue {
    AccountValue(Or(fields.nonce, a.nonce), Or(fields.balance, a.balance),
                 Or(fields.storageRoot, a.storageRoot), Or(fields.codeHash, a.codeHash))
  }
}
