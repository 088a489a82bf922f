/** Fuzzed call arguments: numbers in a range, and tuples that keep both their component objects
    and a mirrored list of the components' plain values. */
module AbiValues {

  /** A plain value, as the encoder sees it. */
  datatype Plain = Number(n: int) | Values(items: seq<Plain>)

  datatype Abi =
    | Uint(max: int, v: int)
    | Int(min: int, max: int, v: int)
    | Tuple(vs: seq<Plain>, objs: seq<Abi>)

  /** What serialize keeps; the text around it is an invertible codec. */
  datatype Saved =
    | SavedUint(max: int, v: int)
    | SavedInt(min: int, max: int, v: int)
    | SavedTuple(vs: seq<Plain>, objs: seq<Saved>)

  function V(a: Abi): Plain {
    match a
    case Uint(_, v) => Number(v)
    case Int(_, _, v) => Number(v)
    case Tuple(vs, _) => Values(vs)
  }

  function Plains(objs: seq<Abi>): (vs: seq<Plain>)
    ensures |vs| == |objs| && forall i :: 0 <= i < |objs| ==> vs[i] == V(objs[i])
  {
    seq(|objs|, i requires 0 <= i < |objs| => V(objs[i]))
  }

  /** Adding a component recomputes the mirrored list. */
  function Push(t: Abi, item: Abi): Abi
    requires t.Tuple?
  {
    Tuple(Plains(t.objs + [item]), t.objs + [item])
  }

  function Copy(a: Abi): Abi {
    match a
    case Uint(max, v) => Uint(max, v)
    case Int(min, max, v) => Int(min, max, v)
    case Tuple(vs, objs) => Tuple(vs, CopyAll(objs))
  }

  function CopyAll(abis: seq<Abi>): (copies: seq<Abi>)
    ensures |copies| == |abis|
  {
    if abis == [] then [] else [Copy(abis[0])] + CopyAll(abis[1..])
  }

  function Serialize(a: Abi): Saved {
    match a
    case Uint(max, v) => SavedUint(max, v)
    case Int(min, max, v) => SavedInt(min, max, v)
    case Tuple(vs, objs) => SavedTuple(vs, SerializeAll(objs))
  }

  function SerializeAll(abis: seq<Abi>): (saved: seq<Saved>)
    ensures |saved| == |abis|
  {
    if abis == [] then [] else [Serialize(abis[0])] + SerializeAll(abis[1..])
  }

  datatype Restored = Restored(abi: Abi) | Failed

  /** Reads saved values into an existing object, which decides the shape: fields and components
      beyond its own are ignored, and missing ones are failures. */
  function Deserialize(a: Abi, s: Saved): Restored {
    match (a, s)
    case (Uint(_, _), SavedUint(max, v)) => Restored(Uint(max, v))
    case (Uint(_, _), SavedInt(_, max, v)) => Restored(Uint(max, v))
    case (Int(_, _, _), SavedInt(min, max, v)) => Restored(Int(min, max, v))
    case (Tuple(_, objs), SavedTuple(vs, saved)) =>
      var r := DeserializeAll(objs, saved);
      if r.AllFailed? then Failed else Restored(Tuple(vs, r.abis))
    case _ => Failed
  }

  datatype AllRestored = AllRestored(abis: seq<Abi>) | AllFailed

  function DeserializeAll(abis: seq<Abi>, saved: seq<Saved>): AllRestored {
    if abis == [] then AllRestored([])
    else if saved == [] then AllFailed
    else
      var first := Deserialize(abis[0], saved[0]);
      if first.Failed? then AllFailed
      else
        var rest := DeserializeAll(abis[1..], saved[1..]);
        if rest.AllFailed? then AllFailed else AllRestored([first.abi] + rest.abis)
  }

  /** Same kinds and component counts throughout, whatever the values. */
  predicate SameShape(a: Abi, b: Abi) {
    match (a, b)
    case (Uint(_, _), Uint(_, _)) => true
    case (Int(_, _, _), Int(_, _, _)) => true
    case (Tuple(_, os), Tuple(_, ps)) => SameShapes(os, ps)
    case _ => false
  }

  predicate SameShapes(abis: seq<Abi>, others: seq<Abi>) {
    |abis| == |others| && (abis == [] || (SameShape(abis[0], others[0]) && SameShapes(abis[1..], others[1..])))
  }

  /** Every tuple's list shows the current values of its components. */
  predicate Mirrored(a: Abi) {
    a.Tuple? ==> a.vs == Plains(a.objs) && forall i :: 0 <= i < |a.objs| ==> Mirrored(a.objs[i])
  }

  // ------------------------------------------------------------------ mutation

  /** What a random mutation can turn a value into. */
  ghost predicate MutatesTo(a: Abi, b: Abi)
    decreases a
  {
    match a
    case Uint(max, _) => b.Uint? && b.max == max && 0 <= b.v <= max
    case Int(min, max, _) => b.Int? && b.min == min && b.max == max && min <= b.v <= max
    case Tuple(vs, objs) =>
      && b.Tuple? && |b.objs| == |objs| && |b.vs| == |vs| == |objs|
      && forall i :: 0 <= i < |objs| ==>
           || (b.objs[i] == objs[i] && b.vs[i] == vs[i])
           || (MutatesTo(objs[i], b.objs[i]) && b.vs[i] == V(b.objs[i]))
  }

  /** The ranges to draw from are not empty, as the constructors make them. */
  predicate Drawable(a: Abi) {
    match a
    case Uint(max, _) => 0 <= max
    case Int(min, max, _) => min <= max
    case Tuple(vs, objs) => |vs| == |objs| && forall i :: 0 <= i < |objs| ==> Drawable(objs[i])
  }

  method Mutate(a: Abi) returns (b: Abi)
    requires Drawable(a)
    ensures MutatesTo(a, b)
    decreases a
  {
    match a {
      case Uint(max, _) =>
        var v :| 0 <= v <= max;
        b := Uint(max, v);
      case Int(min, max, _) =>
        var v :| min <= v <= max;
        b := Int(min, max, v);
      case Tuple(vs0, objs0) =>
        var vs, objs := vs0, objs0;
        for i := 0 to |objs0|
          invariant |objs| == |vs| == |objs0|
          invariant forall k :: i <= k < |objs0| ==> objs[k] == objs0[k] && vs[k] == vs0[k]
          invariant forall k :: 0 <= k < i ==>
                      || (objs[k] == objs0[k] && vs[k] == vs0[k])
                      || (MutatesTo(objs0[k], objs[k]) && vs[k] == V(objs[k]))
        {
          if * {
            var mutated := Mutate(objs[i]);
            objs := objs[i := mutated];
            vs := vs[i := V(mutated)];
          }
        }
        b := Tuple(vs, objs);
    }
  }

  /** One argument of a call is mutated, the others stay. */
  ghost predicate ArgsMutateTo(args: seq<Abi>, after: seq<Abi>) {
    && |after| == |args|
    && exists k :: 0 <= k < |args| && MutatesTo(args[k], after[k])
                   && forall i :: 0 <= i < |args| && i != k ==> after[i] == args[i]
  }

  method MutateAbis(args: seq<Abi>) returns (after: seq<Abi>)
    requires args != [] && forall i :: 0 <= i < |args| ==> Drawable(args[i])
    ensures ArgsMutateTo(args, after)
  {
    var selector: nat :| selector < |args|;
    var mutated := Mutate(args[selector]);
    after := args[selector := mutated];
    assert MutatesTo(args[selector], after[selector]);
  }

  // ------------------------------------------------------------------ laws

  lemma {:induction false} CopyIsIdentity(a: Abi)
    ensures Copy(a) == a
    decreases a, 1
  {
    if a.Tuple? { CopyAllIsIdentity(a.objs); }
  }

  lemma {:induction false} CopyAllIsIdentity(abis: seq<Abi>)
    ensures CopyAll(abis) == abis
    decreases abis, 0
  {
    if abis != [] {
      CopyIsIdentity(abis[0]);
      CopyAllIsIdentity(abis[1..]);
    }
  }

  /** Saving a value and reading it back into any object gives the value exactly when the object has
      its shape, however deeply tuples nest. */
  lemma {:induction false} RoundTrip(a: Abi, b: Abi)
    ensures Deserialize(a, Serialize(b)) == Restored(b) <==> SameShape(a, b)
    decreases a, 1
  {
    if a.Tuple? && b.Tuple? { RoundTripAll(a.objs, b.objs); }
  }

  lemma {:induction false} RoundTripAll(abis: seq<Abi>, others: seq<Abi>)
    ensures DeserializeAll(abis, SerializeAll(others)) == AllRestored(others) <==> SameShapes(abis, others)
    decreases abis, 0
  {
    if abis != [] && others != [] {
      RoundTrip(abis[0], others[0]);
      RoundTripAll(abis[1..], others[1..]);
      var first := Deserialize(abis[0], Serialize(others[0]));
      var rest := DeserializeAll(abis[1..], SerializeAll(others[1..]));
      assert SerializeAll(others)[1..] == SerializeAll(others[1..]);
      if first.Restored? && rest.AllRestored? {
        assert [first.abi] + rest.abis == others <==> first.abi == others[0] && rest.abis == others[1..] by {
          assert ([first.abi] + rest.abis)[1..] == rest.abis;
        }
      }
    }
  }

  /** What an object can read: a value of its shape, but an unsigned number also reads a signed one,
      and a tuple one with more components. */
  predicate Fits(a: Abi, b: Abi) {
    match (a, b)
    case (Uint(_, _), Uint(_, _)) => true
    case (Uint(_, _), Int(_, _, _)) => true
    case (Int(_, _, _), Int(_, _, _)) => true
    case (Tuple(_, os), Tuple(_, ps)) => AllFit(os, ps)
    case _ => false
  }

  predicate AllFit(abis: seq<Abi>, others: seq<Abi>) {
    abis == [] || (others != [] && Fits(abis[0], others[0]) && AllFit(abis[1..], others[1..]))
  }

  /** Saved values are read exactly by what they fit, and the object keeps its shape. */
  lemma {:induction false} ReadsWhatFits(a: Abi, b: Abi)
    ensures Deserialize(a, Serialize(b)).Restored? <==> Fits(a, b)
    ensures Fits(a, b) ==> SameShape(a, Deserialize(a, Serialize(b)).abi)
    ensures Fits(a, b) && !a.Tuple? ==> V(Deserialize(a, Serialize(b)).abi) == V(b)
    decreases a, 1
  {
    if a.Tuple? && b.Tuple? { ReadsAllThatFit(a.objs, b.objs); }
  }

  lemma {:induction false} ReadsAllThatFit(abis: seq<Abi>, others: seq<Abi>)
    ensures DeserializeAll(abis, SerializeAll(others)).AllRestored? <==> AllFit(abis, others)
    ensures AllFit(abis, others) ==> SameShapes(abis, DeserializeAll(abis, SerializeAll(others)).abis)
    decreases abis, 0
  {
    if abis != [] && others != [] {
      ReadsWhatFits(abis[0], others[0]);
      ReadsAllThatFit(abis[1..], others[1..]);
      assert SerializeAll(others)[1..] == SerializeAll(others[1..]);
    }
  }

  lemma {:induction false} ShapesAt(abis: seq<Abi>, others: seq<Abi>)
    ensures SameShapes(abis, others) <==>
            |abis| == |others| && forall i :: 0 <= i < |abis| ==> SameShape(abis[i], others[i])
  {
    if abis != [] && |abis| == |others| {
      ShapesAt(abis[1..], others[1..]);
      assert forall i :: 1 <= i < |abis| ==> abis[i] == abis[1..][i - 1] && others[i] == others[1..][i - 1];
    }
  }

  lemma {:induction false} SameShapeReflexive(a: Abi)
    ensures SameShape(a, a)
    decreases a
  {
    if a.Tuple? {
      forall i | 0 <= i < |a.objs| ensures SameShape(a.objs[i], a.objs[i]) { SameShapeReflexive(a.objs[i]); }
      ShapesAt(a.objs, a.objs);
    }
  }

  lemma {:induction false} SameShapeTransitive(a: Abi, b: Abi, c: Abi)
    requires SameShape(a, b) && SameShape(b, c)
    ensures SameShape(a, c)
    decreases a
  {
    if a.Tuple? {
      ShapesAt(a.objs, b.objs);
      ShapesAt(b.objs, c.objs);
      forall i | 0 <= i < |a.objs| ensures SameShape(a.objs[i], c.objs[i]) {
        SameShapeTransitive(a.objs[i], b.objs[i], c.objs[i]);
      }
      ShapesAt(a.objs, c.objs);
    }
  }

  /** Mutation changes values only: the shape, the mirrored lists and the ranges survive it. */
  lemma {:induction false} MutationKeepsForm(a: Abi, b: Abi)
    requires MutatesTo(a, b)
    ensures SameShape(a, b)
    ensures Mirrored(a) ==> Mirrored(b)
    ensures Drawable(a) ==> Drawable(b)
    decreases a
  {
    if a.Tuple? {
      forall i | 0 <= i < |a.objs|
        ensures SameShape(a.objs[i], b.objs[i])
        ensures Mirrored(a) ==> Mirrored(b.objs[i]) && b.vs[i] == V(b.objs[i])
        ensures Drawable(a) ==> Drawable(b.objs[i])
      {
        if b.objs[i] == a.objs[i] && b.vs[i] == a.vs[i] {
          SameShapeReflexive(a.objs[i]);
        } else {
          MutationKeepsForm(a.objs[i], b.objs[i]);
        }
      }
      ShapesAt(a.objs, b.objs);
      if Mirrored(a) { assert b.vs == Plains(b.objs); }
    }
  }

  lemma PushKeepsMirror(t: Abi, item: Abi)
    requires t.Tuple? && Mirrored(t) && Mirrored(item)
    ensures Mirrored(Push(t, item)) && Push(t, item).vs == t.vs + [V(item)]
  {
  }
}
