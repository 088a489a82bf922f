/** The generated client means what the interface says. */
module ClientProofs {
  import opened Common
  import opened IdlParser
  import opened ClientGenerator

  ghost predicate DistinctFields(fields: seq<Field>) {
    forall j, k :: 0 <= j < k < |fields| ==> fields[j].name != fields[k].name
  }

  ghost predicate DistinctParams(params: seq<Param>) {
    forall j, k :: 0 <= j < k < |params| ==> params[j].name != params[k].name
  }

  predicate Binds(params: seq<Param>, x: string) {
    exists k :: 0 <= k < |params| && params[k].name == x
  }

  // ------------------------------------------------------------------ binding

  lemma PrefixInjective(prefix: string, s: string, t: string)
    requires prefix + s == prefix + t
    ensures s == t
  {
    assert (prefix + s)[|prefix|..] == s && (prefix + t)[|prefix|..] == t;
  }

  lemma PrefixedDistinct(prefix: string, fields: seq<Field>)
    ensures DistinctParams(ParamsFor(prefix, fields)) <==> DistinctFields(fields)
  {
    var params := ParamsFor(prefix, fields);
    if DistinctFields(fields) {
      forall j, k | 0 <= j < k < |params| ensures params[j].name != params[k].name {
        if params[j].name == params[k].name { PrefixInjective(prefix, fields[j].name, fields[k].name); }
      }
    }
    if DistinctParams(params) {
      forall j, k | 0 <= j < k < |fields| ensures fields[j].name != fields[k].name {
        assert params[j].name != params[k].name;
      }
    }
  }

  lemma FamiliesApart(s: string, t: string)
    ensures "i_" + s != "a_" + t && "i_" + s != "client" && "a_" + t != "client"
         && "i_" + s != "signers" && "a_" + t != "signers"
  {
    assert ("i_" + s)[0] == 'i' && ("a_" + t)[0] == 'a';
  }

  lemma IxParamsDistinct(program: string, ix: Instruction)
    ensures DistinctParams(IxForm(program, ix).params) <==> DistinctFields(ix.parameters) && DistinctFields(ix.accounts)
  {
    var ins, accs := ParamsFor("i_", ix.parameters), ParamsFor("a_", ix.accounts);
    PrefixedDistinct("i_", ix.parameters);
    PrefixedDistinct("a_", ix.accounts);
    forall j, k | 0 <= j < |ins| && 0 <= k < |accs| ensures ins[j].name != accs[k].name {
      FamiliesApart(ix.parameters[j].name, ix.accounts[k].name);
    }
    DistinctSplit(ins, accs);
  }

  lemma NoneIsReserved(ins: seq<Field>, accs: seq<Field>, j: nat)
    requires j < |ins| + |accs|
    ensures var name := (ParamsFor("i_", ins) + ParamsFor("a_", accs))[j].name; name != "client" && name != "signers"
  {
    if j < |ins| { FamiliesApart(ins[j].name, ""); } else { FamiliesApart("", accs[j - |ins|].name); }
  }

  /** A generated function's parameters are distinct exactly when the interface's parameter names are
      and its account names are: the two families never clash, nor with `client` or `signers`. */
  lemma ParamsDistinct(program: string, ix: Instruction)
    ensures DistinctParams(AsyncForm(program, ix).params) <==>
              DistinctFields(ix.parameters) && DistinctFields(ix.accounts)
    ensures DistinctParams(IxForm(program, ix).params) <==> DistinctFields(ix.parameters) && DistinctFields(ix.accounts)
  {
    IxParamsDistinct(program, ix);
    var short := IxForm(program, ix).params;
    forall j | 0 <= j < |short| ensures short[j].name != "client" && short[j].name != "signers" {
      NoneIsReserved(ix.parameters, ix.accounts, j);
    }
    AsyncWraps(program, ix);
    DistinctWrap(short);
  }

  lemma AsyncWraps(program: string, ix: Instruction)
    ensures AsyncForm(program, ix).params == [CLIENT] + IxForm(program, ix).params + [SIGNERS]
  {
  }

  lemma DistinctSplit(ins: seq<Param>, accs: seq<Param>)
    requires forall j, k :: 0 <= j < |ins| && 0 <= k < |accs| ==> ins[j].name != accs[k].name
    ensures DistinctParams(ins + accs) <==> DistinctParams(ins) && DistinctParams(accs)
  {
    var all := ins + accs;
    if DistinctParams(all) {
      forall j, k | 0 <= j < k < |ins| ensures ins[j].name != ins[k].name { assert all[j].name != all[k].name; }
      forall j, k | 0 <= j < k < |accs| ensures accs[j].name != accs[k].name {
        assert all[|ins| + j].name != all[|ins| + k].name;
      }
    }
  }

  lemma DistinctWrap(short: seq<Param>)
    requires forall j :: 0 <= j < |short| ==> short[j].name != "client" && short[j].name != "signers"
    ensures DistinctParams([CLIENT] + short + [SIGNERS]) <==> DistinctParams(short)
  {
    var long := [CLIENT] + short + [SIGNERS];
    if DistinctParams(long) {
      forall j, k | 0 <= j < k < |short|
        ensures short[j].name != short[k].name
      {
        assert long[j + 1].name != long[k + 1].name;
      }
    }
    assert "client" != "signers";
  }

  // ------------------------------------------------------------------ use

  lemma {:induction false} UsesInInits(prefix: string, fields: seq<Field>, x: string)
    requires DistinctFields(fields)
    ensures UsesIn(Inits(prefix, fields), x) == if Binds(ParamsFor(prefix, fields), x) then 1 else 0
  {
    var params := ParamsFor(prefix, fields);
    if fields != [] {
      var rest := fields[1..];
      assert DistinctFields(rest) by {
        assert forall j, k :: 0 <= j < k < |rest| ==> rest[j] == fields[j + 1] && rest[k] == fields[k + 1];
      }
      UsesInInits(prefix, rest, x);
      assert Inits(prefix, fields)[1..] == Inits(prefix, rest);
      assert params[1..] == ParamsFor(prefix, rest);
      PrefixedDistinct(prefix, fields);
      if Binds(params[1..], x) {
        var k :| 0 <= k < |params[1..]| && params[1..][k].name == x;
        assert params[k + 1].name == x && params[0].name != params[k + 1].name;
      } else {
        assert forall k :: 1 <= k < |params| ==> params[k] == params[1..][k - 1];
      }
    }
  }

  lemma BindsConcat(p: seq<Param>, q: seq<Param>, x: string)
    ensures Binds(p + q, x) <==> Binds(p, x) || Binds(q, x)
  {
    if k :| 0 <= k < |p| && p[k].name == x { assert (p + q)[k].name == x; }
    if k :| 0 <= k < |q| && q[k].name == x { assert (p + q)[|p| + k].name == x; }
  }

  lemma FamiliesDisjoint(ix: Instruction, x: string)
    ensures !(Binds(ParamsFor("i_", ix.parameters), x) && Binds(ParamsFor("a_", ix.accounts), x))
    ensures x == "client" || x == "signers" ==>
              !Binds(ParamsFor("i_", ix.parameters), x) && !Binds(ParamsFor("a_", ix.accounts), x)
  {
    forall j | 0 <= j < |ix.parameters|
      ensures var name := ParamsFor("i_", ix.parameters)[j].name;
              name[0] == 'i' && name != "client" && name != "signers"
    {
      FamiliesApart(ix.parameters[j].name, "");
    }
    forall j | 0 <= j < |ix.accounts|
      ensures var name := ParamsFor("a_", ix.accounts)[j].name;
              name[0] == 'a' && name != "client" && name != "signers"
    {
      FamiliesApart("", ix.accounts[j].name);
    }
  }

  /** Both bodies use each of their parameters exactly once, and nothing else. */
  lemma EveryParamUsedOnce(program: string, ix: Instruction, x: string)
    requires DistinctFields(ix.parameters) && DistinctFields(ix.accounts)
    ensures BodyUses(AsyncForm(program, ix).body, x) == if Binds(AsyncForm(program, ix).params, x) then 1 else 0
    ensures BodyUses(IxForm(program, ix).body, x) == if Binds(IxForm(program, ix).params, x) then 1 else 0
  {
    UsesInInits("i_", ix.parameters, x);
    UsesInInits("a_", ix.accounts, x);
    FamiliesDisjoint(ix, x);
    var ins, accs := ParamsFor("i_", ix.parameters), ParamsFor("a_", ix.accounts);
    BindsConcat(ins, accs, x);
    BindsConcat([CLIENT] + ins + accs, [SIGNERS], x);
    BindsConcat([CLIENT], ins + accs, x);
    assert [CLIENT] + ins + accs == [CLIENT] + (ins + accs);
    assert Binds([CLIENT], x) <==> x == "client" by { assert [CLIENT][0].name == "client"; }
    assert Binds([SIGNERS], x) <==> x == "signers" by { assert [SIGNERS][0].name == "signers"; }
  }

  // ------------------------------------------------------------------ meaning

  lemma {:induction false} BoundAt(params: seq<Param>, args: seq<Value>, k: nat)
    requires |params| == |args| && DistinctParams(params) && k < |params|
    ensures params[k].name in Bind(params, args) && Bind(params, args)[params[k].name] == args[k]
  {
    var last := |params| - 1;
    if k < last {
      assert params[k].name != params[last].name;
      BoundAt(params[..last], args[..last], k);
    }
  }

  /** The struct that a field list and values for it denote. */
  function Denoted(fields: seq<Field>, values: seq<Value>): (pairs: seq<(string, Value)>)
    requires |fields| == |values|
    ensures |pairs| == |fields| && forall k :: 0 <= k < |fields| ==> pairs[k] == (fields[k].name, values[k])
  {
    seq(|fields|, k requires 0 <= k < |fields| => (fields[k].name, values[k]))
  }

  lemma {:induction false} InitsEvaluate(env: Env, prefix: string, fields: seq<Field>, values: seq<Value>)
    requires |fields| == |values|
    requires forall k :: 0 <= k < |fields| ==>
              prefix + fields[k].name in env && env[prefix + fields[k].name] == values[k]
    ensures EvalInits(env, Inits(prefix, fields)) == Some(Denoted(fields, values))
  {
    if fields != [] {
      assert Inits(prefix, fields)[1..] == Inits(prefix, fields[1..]);
      forall k | 0 <= k < |fields[1..]|
        ensures prefix + fields[1..][k].name in env && env[prefix + fields[1..][k].name] == values[1..][k]
      {
        assert fields[1..][k] == fields[k + 1];
      }
      InitsEvaluate(env, prefix, fields[1..], values[1..]);
      assert Inits(prefix, fields)[0] == Init(fields[0].name, Var(prefix + fields[0].name));
      assert Denoted(fields, values) == [(fields[0].name, values[0])] + Denoted(fields[1..], values[1..]);
    } else {
      assert Denoted(fields, values) == [];
    }
  }

  /** The environment gives each field's variable its value. */
  ghost predicate Gives(env: Env, prefix: string, fields: seq<Field>, values: seq<Value>)
    requires |fields| == |values|
  {
    forall k :: 0 <= k < |fields| ==> prefix + fields[k].name in env && env[prefix + fields[k].name] == values[k]
  }

  lemma LiteralsEvaluate(program: string, ix: Instruction, env: Env, ins: seq<Value>, accs: seq<Value>)
    requires |ins| == |ix.parameters| && |accs| == |ix.accounts|
    requires Gives(env, "i_", ix.parameters, ins) && Gives(env, "a_", ix.accounts, accs)
    ensures Eval(env, InstructionLit(program, ix))
              == Some(Built([program, "instruction", ix.structName], Denoted(ix.parameters, ins)))
    ensures Eval(env, AccountsLit(program, ix))
              == Some(Built([program, "accounts", ix.group], Denoted(ix.accounts, accs)))
  {
    InitsEvaluate(env, "i_", ix.parameters, ins);
    InitsEvaluate(env, "a_", ix.accounts, accs);
  }

  /** Arguments that stand where the fields' parameters stand reach the names they are for. */
  lemma ArgumentsBound(prefix: string, fields: seq<Field>, values: seq<Value>, params: seq<Param>, args: seq<Value>,
                       skip: nat)
    requires |fields| == |values| && |args| == |params| >= skip + |fields| && DistinctParams(params)
    requires params[skip..skip + |fields|] == ParamsFor(prefix, fields) && args[skip..skip + |fields|] == values
    ensures Gives(Bind(params, args), prefix, fields, values)
  {
    forall k | 0 <= k < |fields|
      ensures prefix + fields[k].name in Bind(params, args) && Bind(params, args)[prefix + fields[k].name] == values[k]
    {
      assert params[skip + k] == params[skip..skip + |fields|][k] && args[skip + k] == args[skip..skip + |fields|][k];
      assert params[skip + k].name == prefix + fields[k].name;
      BoundAt(params, args, skip + k);
    }
  }

  lemma IxBinds(program: string, ix: Instruction, ins: seq<Value>, accs: seq<Value>)
    requires DistinctFields(ix.parameters) && DistinctFields(ix.accounts)
    requires |ins| == |ix.parameters| && |accs| == |ix.accounts|
    ensures var params := IxForm(program, ix).params; var args := ins + accs;
            && |params| == |args|
            && Gives(Bind(params, args), "i_", ix.parameters, ins) && Gives(Bind(params, args), "a_", ix.accounts, accs)
  {
    IxParamsDistinct(program, ix);
    var params, args := IxForm(program, ix).params, ins + accs;
    ArgumentsBound("i_", ix.parameters, ins, params, args, 0);
    ArgumentsBound("a_", ix.accounts, accs, params, args, |ins|);
  }

  lemma AsyncBinds(program: string, ix: Instruction, client: Value, ins: seq<Value>, accs: seq<Value>, signers: Value)
    requires DistinctFields(ix.parameters) && DistinctFields(ix.accounts)
    requires |ins| == |ix.parameters| && |accs| == |ix.accounts|
    ensures var params := AsyncForm(program, ix).params; var args := [client] + ins + accs + [signers];
            && |params| == |args|
            && var env := Bind(params, args);
               && Gives(env, "i_", ix.parameters, ins) && Gives(env, "a_", ix.accounts, accs)
               && "client" in env && env["client"] == client && "signers" in env && env["signers"] == signers
  {
    ParamsDistinct(program, ix);
    var params, args := AsyncForm(program, ix).params, [client] + ins + accs + [signers];
    var last := |ins| + |accs| + 1;
    ArgumentsBound("i_", ix.parameters, ins, params, args, 1);
    ArgumentsBound("a_", ix.accounts, accs, params, args, 1 + |ins|);
    BoundAt(params, args, 0);
    BoundAt(params, args, last);
  }

  /** Calling either form builds exactly the instruction struct and the account struct that the
      interface names, with each argument in the field it is for; the async form sends them, the
      `_ix` form encodes them. */
  lemma FormsMeanTheInterface(program: string, ix: Instruction, client: Value, ins: seq<Value>, accs: seq<Value>,
                              signers: Value)
    requires DistinctFields(ix.parameters) && DistinctFields(ix.accounts)
    requires |ins| == |ix.parameters| && |accs| == |ix.accounts|
    ensures var instruction := Built([program, "instruction", ix.structName], Denoted(ix.parameters, ins));
            var accounts := Built([program, "accounts", ix.group], Denoted(ix.accounts, accs));
            && |AsyncForm(program, ix).params| == |[client] + ins + accs + [signers]|
            && |IxForm(program, ix).params| == |ins + accs|
            && Call(AsyncForm(program, ix), [client] + ins + accs + [signers])
              == Sent(client, Id, instruction, accounts, signers)
            && Call(IxForm(program, ix), ins + accs) == Returned(Id, Encoded(instruction), MetaList(accounts))
  {
    AsyncBinds(program, ix, client, ins, accs, signers);
    LiteralsEvaluate(program, ix, Bind(AsyncForm(program, ix).params, [client] + ins + accs + [signers]), ins, accs);
    IxBinds(program, ix, ins, accs);
    LiteralsEvaluate(program, ix, Bind(IxForm(program, ix).params, ins + accs), ins, accs);
  }

  // ------------------------------------------------------------------ one program's functions together

  ghost predicate DistinctNames(fs: seq<Function>) {
    forall j, k :: 0 <= j < k < |fs| ==> fs[j].name != fs[k].name
  }

  ghost predicate NamesCompatible(ixs: seq<Instruction>) {
    && (forall j, k :: 0 <= j < k < |ixs| ==> ixs[j].name != ixs[k].name)
    && (forall j, k :: 0 <= j < |ixs| && 0 <= k < |ixs| ==> ixs[j].name != ixs[k].name + "_ix")
  }

  function NameAt(ixs: seq<Instruction>, j: nat): string
    requires j < 2 * |ixs|
  {
    if j % 2 == 0 then ixs[j / 2].name else ixs[j / 2].name + "_ix"
  }

  lemma {:induction false} PairAt(program: string, ixs: seq<Instruction>, i: nat)
    requires i < |ixs|
    ensures |Functions(program, ixs)| == 2 * |ixs|
    ensures Functions(program, ixs)[2 * i] == AsyncForm(program, ixs[i])
    ensures Functions(program, ixs)[2 * i + 1] == IxForm(program, ixs[i])
  {
    var last := |ixs| - 1;
    var before := Functions(program, ixs[..last]);
    assert |before| == 2 * last by { if last > 0 { PairAt(program, ixs[..last], 0); } }
    assert Functions(program, ixs) == before + [AsyncForm(program, ixs[last]), IxForm(program, ixs[last])];
    if i < last {
      PairAt(program, ixs[..last], i);
      assert ixs[..last][i] == ixs[i];
    }
  }

  /** The generated functions are one pair for each instruction, in order, and nothing else.  Called
      with arguments for its instruction's fields, the first of a pair sends that instruction's structs
      and the second returns their encoded forms. */
  lemma FunctionsMeanTheInstructions(program: string, ixs: seq<Instruction>, i: nat, client: Value, ins: seq<Value>,
                                     accs: seq<Value>, signers: Value)
    requires i < |ixs| && DistinctFields(ixs[i].parameters) && DistinctFields(ixs[i].accounts)
    requires |ins| == |ixs[i].parameters| && |accs| == |ixs[i].accounts|
    ensures |Functions(program, ixs)| == 2 * |ixs|
    ensures var send, build := Functions(program, ixs)[2 * i], Functions(program, ixs)[2 * i + 1];
            var instruction := Built([program, "instruction", ixs[i].structName], Denoted(ixs[i].parameters, ins));
            var accounts := Built([program, "accounts", ixs[i].group], Denoted(ixs[i].accounts, accs));
            && send.name == ixs[i].name && build.name == ixs[i].name + "_ix"
            && |send.params| == |ins| + |accs| + 2 && |build.params| == |ins| + |accs|
            && Call(send, [client] + ins + accs + [signers]) == Sent(client, Id, instruction, accounts, signers)
            && Call(build, ins + accs) == Returned(Id, Encoded(instruction), MetaList(accounts))
  {
    PairAt(program, ixs, i);
    FormsMeanTheInterface(program, ixs[i], client, ins, accs, signers);
  }

  lemma FunctionsAt(program: string, ixs: seq<Instruction>)
    ensures |Functions(program, ixs)| == 2 * |ixs|
    ensures forall j :: 0 <= j < 2 * |ixs| ==> Functions(program, ixs)[j].name == NameAt(ixs, j)
  {
    if ixs != [] { PairAt(program, ixs, 0); }
    forall j | 0 <= j < 2 * |ixs| ensures Functions(program, ixs)[j].name == NameAt(ixs, j) {
      PairAt(program, ixs, j / 2);
    }
  }

  lemma SuffixInjective(s: string, t: string)
    requires s + "_ix" == t + "_ix"
    ensures s == t
  {
    assert (s + "_ix")[..|s|] == s && (t + "_ix")[..|t|] == t;
    assert |s| == |t|;
  }

  lemma CompatibleNamesDiffer(ixs: seq<Instruction>, j: nat, k: nat)
    requires NamesCompatible(ixs) && j < k < 2 * |ixs|
    ensures NameAt(ixs, j) != NameAt(ixs, k)
  {
    if j % 2 == 1 && k % 2 == 1 {
      assert ixs[j / 2].name != ixs[k / 2].name;
      if NameAt(ixs, j) == NameAt(ixs, k) { SuffixInjective(ixs[j / 2].name, ixs[k / 2].name); }
    }
  }

  /** A program's generated functions have distinct names exactly when its instruction names are
      distinct and none is another's with `_ix` appended. */
  lemma FunctionNamesDistinct(program: string, ixs: seq<Instruction>)
    ensures DistinctNames(Functions(program, ixs)) <==> NamesCompatible(ixs)
  {
    FunctionsAt(program, ixs);
    var fs := Functions(program, ixs);
    if NamesCompatible(ixs) {
      forall j, k | 0 <= j < k < |fs| ensures fs[j].name != fs[k].name { CompatibleNamesDiffer(ixs, j, k); }
    }
    if DistinctNames(fs) {
      forall j, k | 0 <= j < k < |ixs| ensures ixs[j].name != ixs[k].name {
        NamesApart(ixs, fs, j, k);
      }
      forall j, k | 0 <= j < |ixs| && 0 <= k < |ixs| ensures ixs[j].name != ixs[k].name + "_ix" {
        NamesApart(ixs, fs, j, k);
      }
    }
  }

  lemma NameAtPair(ixs: seq<Instruction>, j: nat)
    requires j < |ixs|
    ensures NameAt(ixs, 2 * j) == ixs[j].name && NameAt(ixs, 2 * j + 1) == ixs[j].name + "_ix"
  {
  }

  lemma NamesApart(ixs: seq<Instruction>, fs: seq<Function>, j: nat, k: nat)
    requires DistinctNames(fs) && |fs| == 2 * |ixs| && j < |ixs| && k < |ixs|
    requires forall i :: 0 <= i < 2 * |ixs| ==> fs[i].name == NameAt(ixs, i)
    ensures j != k ==> ixs[j].name != ixs[k].name
    ensures ixs[j].name != ixs[k].name + "_ix"
  {
    NameAtPair(ixs, j);
    NameAtPair(ixs, k);
    DistinctAt(ixs, fs, 2 * j, 2 * k + 1);
    if j != k { DistinctAt(ixs, fs, 2 * j, 2 * k); }
  }

  lemma DistinctAt(ixs: seq<Instruction>, fs: seq<Function>, j: nat, k: nat)
    requires DistinctNames(fs) && |fs| == 2 * |ixs| && j < |fs| && k < |fs| && j != k
    requires forall i :: 0 <= i < 2 * |ixs| ==> fs[i].name == NameAt(ixs, i)
    ensures NameAt(ixs, j) != NameAt(ixs, k)
  {
    if j < k { assert fs[j].name != fs[k].name; } else { assert fs[k].name != fs[j].name; }
  }
}
