/** Why replay must start from the recording's deployment counter: the counter decides the contracts'
    addresses, and a contract may depend on its own address. */
module DeploymentCounter {
  import opened Common
  import opened AbiValues
  import opened StateManager
  import opened Fuzzer

  function Pow16(k: nat): nat { if k == 0 then 1 else 16 * Pow16(k - 1) }

  lemma {:induction false} HexIsShort(n: nat, digits: nat)
    requires 1 <= digits && n < Pow16(digits)
    ensures |Hex(n)| <= digits
  {
    assert Pow16(1) == 16;
    if n >= 16 {
      HexIsShort(n / 16, digits - 1);
    }
  }

  const DIGITS := "0123456789abcdef"

  lemma DigitsInOrder(d: nat)
    requires d < 16
    ensures HexDigit(d) == DIGITS[d] as int
  {
  }

  function DigitValue(c: Byte): nat {
    if 48 <= c < 58 then c - 48 else if 97 <= c < 103 then c - 87 else 0
  }

  function ReadHex(s: Bytes): nat {
    if s == [] then 0 else ReadHex(s[..|s| - 1]) * 16 + DigitValue(s[|s| - 1])
  }

  /** Reading the text of a number in base 16 gives the number. */
  lemma {:induction false} HexReads(n: nat)
    ensures ReadHex(Hex(n)) == n
  {
    if n < 16 {
      assert Hex(n)[..0] == [];
    } else {
      HexReads(n / 16);
      assert Hex(n)[..|Hex(n)| - 1] == Hex(n / 16);
    }
  }

  lemma {:induction false} HexInjective(m: nat, n: nat)
    requires Hex(m) == Hex(n)
    ensures m == n
  {
    var s := Hex(m);
    if m >= 16 && n >= 16 {
      assert s[..|s| - 1] == Hex(m / 16) && s[..|s| - 1] == Hex(n / 16);
      HexInjective(m / 16, n / 16);
      assert s[|s| - 1] == HexDigit(m % 16) && s[|s| - 1] == HexDigit(n % 16);
    }
  }

  /** Text without zero bytes can be read back from a zero-padded buffer. */
  lemma PaddingInjective(s: Bytes, t: Bytes, k: nat, l: nat)
    requires forall i :: 0 <= i < |s| ==> s[i] != 0
    requires forall i :: 0 <= i < |t| ==> t[i] != 0
    requires s + Zeros(k) == t + Zeros(l)
    ensures s == t
  {
    var a, b := s + Zeros(k), t + Zeros(l);
    assert forall i :: 0 <= i < |a| ==> (a[i] != 0 <==> i < |s|);
    assert forall i :: 0 <= i < |b| ==> (b[i] != 0 <==> i < |t|);
    assert |s| == |t| by {
      assert |s| < |a| ==> a[|s|] == 0;
      assert |t| < |b| ==> b[|t|] == 0;
    }
    assert a[..|s|] == s && b[..|t|] == t;
  }

  lemma AddressText(n: nat)
    requires n < Pow16(20)
    ensures |Hex(n)| <= 20 && ToAddress(n) == Hex(n) + Zeros(20 - |Hex(n)|)
  {
    HexIsShort(n, 20);
    assert Hex(n)[..|Hex(n)|] == Hex(n);
  }

  /** As long as the counts fit 20 hexadecimal digits, addresses tell deployments apart. */
  lemma AddressesDiffer(m: nat, n: nat)
    requires m < Pow16(20) && n < Pow16(20)
    ensures ToAddress(m) == ToAddress(n) ==> m == n
  {
    AddressText(m);
    AddressText(n);
    if ToAddress(m) == ToAddress(n) {
      PaddingInjective(Hex(m), Hex(n), 20 - |Hex(m)|, 20 - |Hex(n)|);
      HexInjective(m, n);
    }
  }

  /** A world whose contracts answer one byte, telling whether they stand at the victim address. */
  function AddressSensitive(w: World, victim: Address): World {
    w.(evm := (i: EvmInput) => EvmOutput(i.state, false, if i.self == victim then [1] else [0], []),
       isTrue := (b: Bytes) => b == [1])
  }

  const ARGS: seq<Abi> := [Uint(10000, 0)]
  const SAMPLE: ContractAbi := ContractAbi([Method("poke", ARGS)], ["echidna_safe"])
  const PREFIX: Prefix := Prefix([], SAMPLE)

  lemma SampleExecutes(w: World, victim: Address, c: Contract, s: State)
    requires c.abi == SAMPLE
    ensures Execute(AddressSensitive(w, victim), c, "poke", ARGS, CALLER, s)
         == Outcome(false, if c.address == victim then Verdict(true, "echidna_safe", []) else Verdict(false, "", []))
  {
    var v := AddressSensitive(w, victim);
    var after := Step(s, Op.Checkpoint);
    var rest: seq<string> := [];
    assert SAMPLE.oracles[1..] == rest;
    assert RunOracles(v, c, SAMPLE.oracles, CALLER, after, [])
        == if c.address == victim then Verdict(true, "echidna_safe", []) else RunOracles(v, c, rest, CALLER, after, []);
  }

  lemma SampleDeploys(w: World, counter: nat)
    ensures |ContractInfo(w, [PREFIX], counter).contracts| == 1
    ensures ContractInfo(w, [PREFIX], counter).contracts[0].abi == SAMPLE
    ensures ContractInfo(w, [PREFIX], counter).contracts[0].address == ToAddress(counter + 1)
  {
    Deployed(w, [PREFIX], counter);
  }

  lemma SampleReruns(w: World, victim: Address, counter: nat, sm: Contents)
    requires Invertible(w)
    ensures var v := AddressSensitive(w, victim);
            Rerun(v, [PREFIX], counter, v.toText(Txn("poke", SerializeAll(ARGS), sm, CALLER, 0)))
            == Replayed(if ToAddress(counter + 1) == victim then "echidna_safe" else "", [], ARGS)
  {
    var v := AddressSensitive(w, victim);
    var txn := Txn("poke", SerializeAll(ARGS), sm, CALLER, 0);
    assert v.fromText(v.toText(txn)) == Some(txn);
    SampleDeploys(v, counter);
    assert Named(SAMPLE.methods, "poke") == SAMPLE.methods;
    CopyAllIsIdentity(ARGS);
    SameShapeReflexive(ARGS[0]);
    ShapesAt(ARGS, ARGS);
    RoundTripAll(ARGS, ARGS);
    var d := ContractInfo(v, [PREFIX], counter);
    SampleExecutes(w, victim, d.contracts[0], d.state.(contents := sm));
  }

  /** The record of calling the sample contract, as a campaign on a deployment from this counter makes it. */
  function SampleRecord(v: World, counter: nat): string {
    v.toText(Txn("poke", SerializeAll(ARGS), ContractInfo(v, [PREFIX], counter).state.contents, CALLER, 0))
  }

  /** Counters must agree: a replay sees the recorded violation in every world exactly when it starts
      from the counter of the recording.  If the counters differ, a world in which it does not is one
      whose contract depends on its address. */
  lemma CountersMustAgree(w: World, counter: nat, other: nat)
    requires Invertible(w) && counter + 1 < Pow16(20) && other + 1 < Pow16(20)
    ensures var v := AddressSensitive(w, ToAddress(counter + 1));
            var d := ContractInfo(v, [PREFIX], counter);
            && Invertible(v) && |d.contracts| == 1
            && Execute(v, d.contracts[0], "poke", ARGS, CALLER, d.state.(ckpt := None))
               == Outcome(false, Verdict(true, "echidna_safe", []))
            && var r := Rerun(v, [PREFIX], other, SampleRecord(v, counter));
               r == Replayed("echidna_safe", [], ARGS) <==> other == counter
  {
    AddressesDiffer(counter + 1, other + 1);
    var v := AddressSensitive(w, ToAddress(counter + 1));
    var d := ContractInfo(v, [PREFIX], counter);
    SampleDeploys(v, counter);
    SampleExecutes(w, ToAddress(counter + 1), d.contracts[0], d.state.(ckpt := None));
    SampleReruns(w, ToAddress(counter + 1), other, d.state.contents);
    assert forall t :: v.fromText(v.toText(t)) == w.fromText(w.toText(t));
  }
}
