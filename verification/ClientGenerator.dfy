/** The client code generated from a program's interface, with a small semantics for it: what each
    generated function binds, and what it builds when called. */
module ClientGenerator {
  import opened Common
  import opened IdlParser

  // ------------------------------------------------------------------ generated code

  datatype Expr =
    | Var(name: string)
    | ProgramId
    | StructLit(path: seq<string>, fields: seq<Init>)
    | Data(of: Expr)             // .data()
    | Metas(of: Expr)            // .to_account_metas(None)

  datatype Init = Init(name: string, value: Expr)

  datatype Body =
    | SendInstruction(client: Expr, programId: Expr, instruction: Expr, accounts: Expr, signers: Expr)
    | BuildInstruction(programId: Expr, data: Expr, accounts: Expr)

  datatype Param = Param(name: string, ty: string)

  datatype Function = Function(name: string, params: seq<Param>, body: Body)

  const CLIENT := Param("client", "&Client")
  const SIGNERS := Param("signers", "impl IntoIterator<Item = Keypair> + Send + 'static")

  datatype Instruction = Instruction(name: string, structName: string, parameters: seq<Field>, group: string,
                                     accounts: seq<Field>)

  // ------------------------------------------------------------------ the generator

  function ParamsFor(prefix: string, fields: seq<Field>): (params: seq<Param>)
    ensures |params| == |fields|
    ensures forall k :: 0 <= k < |fields| ==> params[k] == Param(prefix + fields[k].name, fields[k].ty)
  {
    seq(|fields|, k requires 0 <= k < |fields| => Param(prefix + fields[k].name, fields[k].ty))
  }

  function Inits(prefix: string, fields: seq<Field>): (inits: seq<Init>)
    ensures |inits| == |fields|
    ensures forall k :: 0 <= k < |fields| ==> inits[k] == Init(fields[k].name, Var(prefix + fields[k].name))
  {
    seq(|fields|, k requires 0 <= k < |fields| => Init(fields[k].name, Var(prefix + fields[k].name)))
  }

  function InstructionLit(program: string, ix: Instruction): Expr {
    StructLit([program, "instruction", ix.structName], Inits("i_", ix.parameters))
  }

  function AccountsLit(program: string, ix: Instruction): Expr {
    StructLit([program, "accounts", ix.group], Inits("a_", ix.accounts))
  }

  function AsyncForm(program: string, ix: Instruction): Function {
    Function(ix.name, [CLIENT] + ParamsFor("i_", ix.parameters) + ParamsFor("a_", ix.accounts) + [SIGNERS],
             SendInstruction(Var("client"), ProgramId, InstructionLit(program, ix), AccountsLit(program, ix),
                             Var("signers")))
  }

  function IxForm(program: string, ix: Instruction): Function {
    Function(ix.name + "_ix", ParamsFor("i_", ix.parameters) + ParamsFor("a_", ix.accounts),
             BuildInstruction(ProgramId, Data(InstructionLit(program, ix)), Metas(AccountsLit(program, ix))))
  }

  /** Each instruction contributes its async function and then its `_ix` function. */
  function Functions(program: string, ixs: seq<Instruction>): seq<Function> {
    if ixs == [] then []
    else Functions(program, ixs[..|ixs| - 1]) + [AsyncForm(program, ixs[|ixs| - 1]), IxForm(program, ixs[|ixs| - 1])]
  }

  // ------------------------------------------------------------------ semantics

  datatype Value =
    | Opaque(id: nat)
    | Built(path: seq<string>, fields: seq<(string, Value)>)
    | Encoded(of: Value)
    | MetaList(of: Value)
    | Id

  datatype Effect =
    | Sent(client: Value, programId: Value, instruction: Value, accounts: Value, signers: Value)
    | Returned(programId: Value, data: Value, accounts: Value)
    | Unbound

  type Env = map<string, Value>

  function Bind(params: seq<Param>, args: seq<Value>): Env
    requires |params| == |args|
  {
    if params == [] then map[]
    else Bind(params[..|params| - 1], args[..|args| - 1])[params[|params| - 1].name := args[|args| - 1]]
  }

  function Eval(env: Env, e: Expr): Option<Value>
    decreases e, 1
  {
    match e
    case Var(x) => if x in env then Some(env[x]) else None
    case ProgramId => Some(Id)
    case StructLit(path, inits) =>
      (match EvalInits(env, inits)
       case None => None
       case Some(fields) => Some(Built(path, fields)))
    case Data(of) => (match Eval(env, of) case None => None case Some(v) => Some(Encoded(v)))
    case Metas(of) => (match Eval(env, of) case None => None case Some(v) => Some(MetaList(v)))
  }

  function EvalInits(env: Env, inits: seq<Init>): Option<seq<(string, Value)>>
    decreases inits, 0
  {
    if inits == [] then Some([])
    else
      match (Eval(env, inits[0].value), EvalInits(env, inits[1..]))
      case (Some(v), Some(rest)) => Some([(inits[0].name, v)] + rest)
      case _ => None
  }

  /** Calling a function: bind the arguments in order, then evaluate the body. */
  function Call(f: Function, args: seq<Value>): Effect
    requires |args| == |f.params|
  {
    var env := Bind(f.params, args);
    match f.body
    case SendInstruction(c, p, i, a, s) =>
      (match (Eval(env, c), Eval(env, p), Eval(env, i), Eval(env, a), Eval(env, s))
       case (Some(c), Some(p), Some(i), Some(a), Some(s)) => Sent(c, p, i, a, s)
       case _ => Unbound)
    case BuildInstruction(p, d, a) =>
      (match (Eval(env, p), Eval(env, d), Eval(env, a))
       case (Some(p), Some(d), Some(a)) => Returned(p, d, a)
       case _ => Unbound)
  }

  /** How often an expression mentions a variable. */
  function Uses(e: Expr, x: string): nat
    decreases e, 1
  {
    match e
    case Var(y) => if x == y then 1 else 0
    case ProgramId => 0
    case StructLit(_, inits) => UsesIn(inits, x)
    case Data(of) => Uses(of, x)
    case Metas(of) => Uses(of, x)
  }

  function UsesIn(inits: seq<Init>, x: string): nat
    decreases inits, 0
  {
    if inits == [] then 0 else Uses(inits[0].value, x) + UsesIn(inits[1..], x)
  }

  function BodyUses(b: Body, x: string): nat {
    match b
    case SendInstruction(c, p, i, a, s) => Uses(c, x) + Uses(p, x) + Uses(i, x) + Uses(a, x) + Uses(s, x)
    case BuildInstruction(p, d, a) => Uses(p, x) + Uses(d, x) + Uses(a, x)
  }
}
