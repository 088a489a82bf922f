/** Reading a program's expanded source: instruction structs are matched in one pass over the
    instruction module, account modules are gathered by a recursive walk, and their fields are joined
    to the instructions by name. */
module IdlParser {
  import opened Common

  datatype Field = Field(name: string, ty: string)

  datatype Fields = Named(fields: seq<Field>) | Unit | Unnamed

  datatype Item =
    | Struct(name: string, fields: Fields)
    | Mod(name: string, content: seq<Item>)
    | ModDeclaration(name: string)             // a module without a body
    | OtherItem

  datatype Pair = Pair(instruction: string, parameters: seq<Field>, group: string, accounts: seq<Field>)

  const ACCOUNT_MOD_PREFIX := "__client_accounts_"

  // ------------------------------------------------------------------ one pass over the instruction module

  predicate Matches(item: Item, name: string) {
    item.Struct? && item.name == name && !item.fields.Unnamed?
  }

  function FieldsOf(item: Item): seq<Field> {
    if item.Struct? && item.fields.Named? then item.fields.fields else []
  }

  /** Each name takes the next matching struct; what lies before it is used up. */
  function Scan(items: seq<Item>, names: seq<string>): Option<seq<seq<Field>>>
    decreases |items|
  {
    if names == [] then Some([])
    else if items == [] then None
    else if Matches(items[0], names[0]) then
      match Scan(items[1..], names[1..])
      case None => None
      case Some(rest) => Some([FieldsOf(items[0])] + rest)
    else Scan(items[1..], names)
  }

  /** The shared iterator: an inner search per name, never going back. */
  method ScanInstructions(items: seq<Item>, names: seq<string>) returns (parameters: Option<seq<seq<Field>>>)
    ensures parameters == Scan(items, names)
  {
    var cursor := 0;
    var found: seq<seq<Field>> := [];
    var k := 0;
    assert Scan(items, names) == Prepend([], Scan(items, names)) by {
      if Scan(items, names).Some? { assert [] + Scan(items, names).value == Scan(items, names).value; }
    }
    while k < |names|
      invariant k <= |names| && cursor <= |items|
      invariant Scan(items, names) == Prepend(found, Scan(items[cursor..], names[k..]))
    {
      while cursor < |items| && !Matches(items[cursor], names[k])
        invariant cursor <= |items|
        invariant Scan(items, names) == Prepend(found, Scan(items[cursor..], names[k..]))
      {
        assert items[cursor..][1..] == items[cursor + 1..];
        cursor := cursor + 1;
      }
      if cursor == |items| {
        return None;
      }
      assert items[cursor..][1..] == items[cursor + 1..] && names[k..][1..] == names[k + 1..];
      PrependStep(found, FieldsOf(items[cursor]), Scan(items[cursor + 1..], names[k + 1..]));
      found := found + [FieldsOf(items[cursor])];
      cursor := cursor + 1;
      k := k + 1;
    }
    assert names[k..] == [] && found + [] == found;
    parameters := Some(found);
  }

  function Prepend<T>(done: seq<T>, rest: Option<seq<T>>): Option<seq<T>> {
    match rest
    case None => None
    case Some(r) => Some(done + r)
  }

  lemma PrependStep<T>(done: seq<T>, x: T, rest: Option<seq<T>>)
    ensures Prepend(done, Prepend([x], rest)) == Prepend(done + [x], rest)
  {
    if rest.Some? { assert done + ([x] + rest.value) == done + [x] + rest.value; }
  }

  /** An order-preserving assignment of a matching struct to every name. */
  ghost predicate Embeds(items: seq<Item>, names: seq<string>, at: seq<nat>) {
    && |at| == |names|
    && (forall k :: 0 <= k < |at| ==> at[k] < |items| && Matches(items[at[k]], names[k]))
    && (forall j, k :: 0 <= j < k < |at| ==> at[j] < at[k])
  }

  /** The pass succeeds with the fields of the structs at these places. */
  ghost predicate Found(items: seq<Item>, names: seq<string>, at: seq<nat>) {
    && Embeds(items, names, at)
    && Scan(items, names).Some? && |Scan(items, names).value| == |at|
    && forall k :: 0 <= k < |at| ==> Scan(items, names).value[k] == FieldsOf(items[at[k]])
  }

  function Shifted(at: seq<nat>): (s: seq<nat>)
    ensures |s| == |at| && forall k :: 0 <= k < |at| ==> s[k] == at[k] + 1
  {
    seq(|at|, k requires 0 <= k < |at| => at[k] + 1)
  }

  lemma FoundLater(items: seq<Item>, names: seq<string>, at: seq<nat>)
    requires items != [] && names != [] && !Matches(items[0], names[0]) && Found(items[1..], names, at)
    ensures Found(items, names, Shifted(at))
  {
    forall k | 0 <= k < |at| ensures items[1..][at[k]] == items[at[k] + 1] {}
  }

  lemma EmbedsFirst(items: seq<Item>, names: seq<string>, at: seq<nat>)
    requires items != [] && names != [] && Matches(items[0], names[0]) && Embeds(items[1..], names[1..], at)
    ensures Embeds(items, names, [0] + Shifted(at))
  {
    var all := [0] + Shifted(at);
    forall k | 0 <= k < |all| ensures all[k] < |items| && Matches(items[all[k]], names[k]) {
      if k > 0 { assert items[1..][at[k - 1]] == items[all[k]] && names[1..][k - 1] == names[k]; }
    }
    forall j, k | 0 <= j < k < |all| ensures all[j] < all[k] {
      if j > 0 { assert at[j - 1] < at[k - 1]; }
    }
  }

  lemma FoundFirst(items: seq<Item>, names: seq<string>, at: seq<nat>)
    requires items != [] && names != [] && Matches(items[0], names[0]) && Found(items[1..], names[1..], at)
    ensures Found(items, names, [0] + Shifted(at))
  {
    EmbedsFirst(items, names, at);
    var all, rest := [0] + Shifted(at), Scan(items[1..], names[1..]).value;
    assert Scan(items, names).value == [FieldsOf(items[0])] + rest;
    forall k | 0 <= k < |all| ensures Scan(items, names).value[k] == FieldsOf(items[all[k]]) {
      if k > 0 { assert rest[k - 1] == FieldsOf(items[1..][at[k - 1]]); }
    }
  }

  lemma {:induction false} ScanFindsEmbedding(items: seq<Item>, names: seq<string>) returns (at: seq<nat>)
    requires Scan(items, names).Some?
    ensures Found(items, names, at)
    decreases |items|
  {
    if names == [] {
      at := [];
    } else if Matches(items[0], names[0]) {
      var rest := ScanFindsEmbedding(items[1..], names[1..]);
      FoundFirst(items, names, rest);
      at := [0] + Shifted(rest);
    } else {
      var rest := ScanFindsEmbedding(items[1..], names);
      FoundLater(items, names, rest);
      at := Shifted(rest);
    }
  }

  lemma {:induction false} EmbeddingMakesScan(items: seq<Item>, names: seq<string>, at: seq<nat>)
    requires Embeds(items, names, at)
    ensures Scan(items, names).Some?
    decreases |items|
  {
    if names != [] {
      assert at[0] < |items|;
      var tail := items[1..];
      if Matches(items[0], names[0]) {
        // taking the first match is never worse than the match the embedding takes
        var shifted := seq(|at| - 1, k requires 0 <= k < |at| - 1 => at[k + 1] - 1);
        forall k | 0 <= k < |shifted| ensures shifted[k] < |tail| && Matches(tail[shifted[k]], names[1..][k]) {
          assert at[0] < at[k + 1];
        }
        EmbeddingMakesScan(tail, names[1..], shifted);
      } else {
        forall k | 0 <= k < |at| ensures at[k] > 0 { if k > 0 { assert at[0] < at[k]; } }
        var shifted: seq<nat> := seq(|at|, k requires 0 <= k < |at| => at[k] - 1);
        forall k | 0 <= k < |shifted| ensures shifted[k] < |tail| && Matches(tail[shifted[k]], names[k]) {}
        EmbeddingMakesScan(tail, names, shifted);
      }
    }
  }

  /** The single pass succeeds exactly when the names are a subsequence of the named and unit structs. */
  lemma ScanSucceedsOnSubsequences(items: seq<Item>, names: seq<string>)
    ensures Scan(items, names).Some? <==> exists at :: Embeds(items, names, at)
  {
    if Scan(items, names).Some? {
      var at := ScanFindsEmbedding(items, names);
    }
    if at :| Embeds(items, names, at) {
      EmbeddingMakesScan(items, names, at);
    }
  }

  ghost predicate StructsDistinct(items: seq<Item>) {
    forall i, j :: 0 <= i < j < |items| && items[i].Struct? && items[j].Struct? ==> items[i].name != items[j].name
  }

  /** With distinct struct names, what the pass finds is what looking each name up would find. */
  lemma ScanAgreesWithLookup(items: seq<Item>, names: seq<string>, k: nat, i: nat)
    requires StructsDistinct(items) && Scan(items, names).Some? && k < |names|
    requires i < |items| && items[i].Struct? && items[i].name == names[k]
    ensures |Scan(items, names).value| == |names| && Scan(items, names).value[k] == FieldsOf(items[i])
  {
    var at := ScanFindsEmbedding(items, names);
    assert Matches(items[at[k]], names[k]);
    assert at[k] == i;
  }

  /** The items hold a struct of that name with these named fields, or a unit struct. */
  predicate Writes(items: seq<Item>, name: string, fields: seq<Field>) {
    Struct(name, Named(fields)) in items || (fields == [] && Struct(name, Unit) in items)
  }

  lemma FieldsAsWritten(items: seq<Item>, i: nat, name: string)
    requires i < |items| && Matches(items[i], name)
    ensures Writes(items, name, FieldsOf(items[i]))
  {
    assert items[i] in items;
    assert items[i] == Struct(name, items[i].fields);
  }

  /** What the pass finds for a name are the fields of a struct of that name, as the items write them. */
  lemma ScanFindsWhatIsWritten(items: seq<Item>, names: seq<string>, k: nat)
    requires Scan(items, names).Some? && k < |names|
    ensures |Scan(items, names).value| == |names| && Writes(items, names[k], Scan(items, names).value[k])
  {
    var at := ScanFindsEmbedding(items, names);
    FieldsAsWritten(items, at[k], names[k]);
  }

  // ------------------------------------------------------------------ walking to the account modules

  predicate IsModule(m: Item) { m.Mod? || m.ModDeclaration? }

  predicate IsAccountModule(m: Item) {
    IsModule(m) && |ACCOUNT_MOD_PREFIX| <= |m.name| && m.name[..|ACCOUNT_MOD_PREFIX|] == ACCOUNT_MOD_PREFIX
  }

  /** Account modules are those whose name is the prefix and something after it. */
  lemma AccountModulesByName(m: Item, camel: Camel)
    ensures IsAccountModule(m) <==> (m.Mod? || m.ModDeclaration?) && exists s :: m.name == "__client_accounts_" + s
    ensures forall s :: IsAccountModule(m) && m.name == "__client_accounts_" + s ==> StructName(camel, m) == camel(s)
  {
    if IsAccountModule(m) { assert m.name == ACCOUNT_MOD_PREFIX + m.name[|ACCOUNT_MOD_PREFIX|..]; }
    if s :| IsModule(m) && m.name == "__client_accounts_" + s {
      assert m.name[..|ACCOUNT_MOD_PREFIX|] == ACCOUNT_MOD_PREFIX;
    }
    forall s | IsAccountModule(m) && m.name == "__client_accounts_" + s ensures StructName(camel, m) == camel(s) {
      assert m.name[|ACCOUNT_MOD_PREFIX|..] == s;
    }
  }

  /** None is a panic: a module without a body that had to be entered. */
  function WalkItem(m: Item): Option<seq<Item>>
    decreases m, 0
  {
    if !IsModule(m) then Some([])
    else if IsAccountModule(m) then Some([m])
    else if m.ModDeclaration? then None
    else Walk(m.content)
  }

  function Walk(items: seq<Item>): Option<seq<Item>>
    decreases items, 1
  {
    if items == [] then Some([])
    else
      match WalkItem(items[0])
      case None => None
      case Some(found) => Prepend(found, Walk(items[1..]))
  }

  /** The recursive collector, pushing onto one shared list. */
  method SetAccountModules(modules: seq<Item>, m: Item) returns (after: seq<Item>, panicked: bool)
    requires IsModule(m)
    ensures panicked == WalkItem(m).None?
    ensures !panicked ==> after == modules + WalkItem(m).value
    decreases m
  {
    after, panicked := modules, false;
    if IsAccountModule(m) {
      after := after + [m];
      return;
    }
    if m.ModDeclaration? {
      return after, true;
    }
    var items := m.content;
    var i := 0;
    while i < |items|
      invariant i <= |items|
      invariant Walk(items).None? ==> Walk(items[i..]).None?
      invariant Walk(items).Some? ==>
                Walk(items[i..]).Some? && modules + Walk(items).value == after + Walk(items[i..]).value
    {
      assert items[i..][1..] == items[i + 1..];
      if IsModule(items[i]) {
        after, panicked := SetAccountModules(after, items[i]);
        if panicked { return; }
      }
      i := i + 1;
    }
  }

  // A place in the source: an index into a list of items, then into the content of that item, and so on.
  type Path = seq<nat>

  function At(items: seq<Item>, path: Path): Option<Item>
    decreases |path|
  {
    if path == [] || path[0] >= |items| then None
    else if |path| == 1 then Some(items[path[0]])
    else
      var m := items[path[0]];
      if m.Mod? then At(m.content, path[1..]) else None
  }

  /** The place holds a prefixed module and lies in no other one. */
  ghost predicate Outermost(items: seq<Item>, path: Path) {
    && At(items, path).Some? && IsAccountModule(At(items, path).value)
    && forall n :: 0 < n < |path| ==> At(items, path[..n]).Some? && !IsAccountModule(At(items, path[..n]).value)
  }

  predicate Before(p: Path, q: Path)
    decreases |p|
  {
    if q == [] then false
    else if p == [] then true
    else p[0] < q[0] || (p[0] == q[0] && Before(p[1..], q[1..]))
  }

  /** The places that the walk collects from, in its order. */
  function PlacesFrom(items: seq<Item>, index: nat): seq<Path>
    decreases items, 1
  {
    if items == [] then []
    else PlacesIn(items[0], index) + PlacesFrom(items[1..], index + 1)
  }

  function PlacesIn(m: Item, index: nat): seq<Path>
    decreases m, 0
  {
    if IsAccountModule(m) then [[index]]
    else if m.Mod? then Under(index, PlacesFrom(m.content, 0))
    else []
  }

  function Under(index: nat, paths: seq<Path>): (under: seq<Path>)
    ensures |under| == |paths| && forall k :: 0 <= k < |paths| ==> under[k] == [index] + paths[k]
  {
    seq(|paths|, k requires 0 <= k < |paths| => [index] + paths[k])
  }

  ghost predicate Increasing(paths: seq<Path>) {
    forall j, k :: 0 <= j < k < |paths| ==> Before(paths[j], paths[k])
  }

  /** The places are all at the index, in order, the outermost ones, and hold what the walk found. */
  ghost predicate PlacedAt(whole: seq<Item>, index: nat, places: seq<Path>, found: Option<seq<Item>>) {
    && (forall k :: 0 <= k < |places| ==> places[k] != [] && places[k][0] == index)
    && Increasing(places)
    && (forall p: Path :: p in places <==> p != [] && p[0] == index && Outermost(whole, p))
    && (found.Some? ==> Shows(whole, places, found.value))
  }

  /** The same for a list's places from the index on. */
  ghost predicate PlacedFrom(whole: seq<Item>, index: nat, places: seq<Path>, found: Option<seq<Item>>) {
    && (forall k :: 0 <= k < |places| ==> places[k] != [] && places[k][0] >= index)
    && Increasing(places)
    && (forall p: Path :: p in places <==> p != [] && p[0] >= index && Outermost(whole, p))
    && (found.Some? ==> Shows(whole, places, found.value))
  }

  ghost predicate Shows(whole: seq<Item>, places: seq<Path>, found: seq<Item>) {
    |found| == |places| && forall k :: 0 <= k < |places| ==> At(whole, places[k]) == Some(found[k])
  }

  /** Within one item, `whole` being the list it stands in at `index`. */
  lemma {:induction false} PlacesInItem(whole: seq<Item>, index: nat)
    requires index < |whole|
    ensures PlacedAt(whole, index, PlacesIn(whole[index], index), WalkItem(whole[index]))
    decreases whole[index], 0
  {
    var m := whole[index];
    if IsAccountModule(m) {
      forall p: Path | p != [] && p[0] == index && Outermost(whole, p) ensures p == [index] {
        assert p[..1] == [index];
      }
    } else if m.Mod? {
      PlacesInList(m.content, 0, m.content);
      PlacesBelow(whole, index, PlacesFrom(m.content, 0), Walk(m.content));
    } else {
      forall p: Path | p != [] && p[0] == index ensures !Outermost(whole, p) {}
    }
  }

  /** The places within a module that is not collected itself, seen from the list it stands in. */
  lemma PlacesBelow(whole: seq<Item>, index: nat, paths: seq<Path>, found: Option<seq<Item>>)
    requires index < |whole| && whole[index].Mod? && !IsAccountModule(whole[index])
    requires PlacedFrom(whole[index].content, 0, paths, found)
    ensures PlacedAt(whole, index, Under(index, paths), found)
  {
    var places := Under(index, paths);
    forall k | 0 <= k < |places|
      ensures places[k][1..] == paths[k] && At(whole, places[k]) == At(whole[index].content, paths[k])
    {
      assert places[k][1..] == paths[k];
    }
    forall p: Path ensures p in places <==> p != [] && p[0] == index && Outermost(whole, p) {
      if p in places {
        var k :| 0 <= k < |places| && places[k] == p;
        assert paths[k] in paths;
        OutermostUnder(whole, index, paths[k]);
      }
      if p != [] && p[0] == index && Outermost(whole, p) {
        assert |p| > 1;
        assert [index] + p[1..] == p;
        OutermostUnder(whole, index, p[1..]);
        var k :| 0 <= k < |paths| && paths[k] == p[1..];
        assert places[k] == p;
      }
    }
  }

  lemma OutermostUnder(whole: seq<Item>, index: nat, path: Path)
    requires index < |whole| && whole[index].Mod? && !IsAccountModule(whole[index]) && path != []
    ensures Outermost(whole[index].content, path) <==> Outermost(whole, [index] + path)
  {
    var p := [index] + path;
    assert p[1..] == path;
    var inner := whole[index].content;
    forall n | 0 < n < |path| ensures At(whole, p[..n + 1]) == At(inner, path[..n]) {
      assert p[..n + 1][1..] == path[..n];
    }
    assert p[..1] == [index];
    if Outermost(inner, path) {
      forall n | 0 < n < |p| ensures At(whole, p[..n]).Some? && !IsAccountModule(At(whole, p[..n]).value) {
        if n > 1 { assert At(whole, p[..(n - 1) + 1]) == At(inner, path[..n - 1]); }
      }
    }
    if Outermost(whole, p) {
      forall n | 0 < n < |path| ensures At(inner, path[..n]).Some? && !IsAccountModule(At(inner, path[..n]).value) {
        assert At(whole, p[..n + 1]) == At(inner, path[..n]);
      }
    }
  }

  lemma {:induction false} PlacesInList(whole: seq<Item>, index: nat, rest: seq<Item>)
    requires index <= |whole| && whole[index..] == rest
    ensures PlacedFrom(whole, index, PlacesFrom(rest, index), Walk(rest))
    decreases rest, 1
  {
    if rest == [] {
      forall p: Path | p != [] && p[0] >= index ensures !Outermost(whole, p) {}
    } else {
      assert whole[index] == rest[0] && whole[index + 1..] == rest[1..];
      PlacesInItem(whole, index);
      PlacesInList(whole, index + 1, rest[1..]);
      Joined(whole, index, PlacesIn(rest[0], index), WalkItem(rest[0]), PlacesFrom(rest[1..], index + 1),
        Walk(rest[1..]));
    }
  }

  /** Places of one item followed by the places of the later ones. */
  lemma Joined(whole: seq<Item>, index: nat, first: seq<Path>, found: Option<seq<Item>>, others: seq<Path>,
               more: Option<seq<Item>>)
    requires PlacedAt(whole, index, first, found) && PlacedFrom(whole, index + 1, others, more)
    ensures PlacedFrom(whole, index, first + others, if found.None? then None else Prepend(found.value, more))
  {
    var all := first + others;
    forall j, k | 0 <= j < k < |all| ensures Before(all[j], all[k]) {
      if k < |first| { assert Before(first[j], first[k]); }
      else if j >= |first| { assert Before(others[j - |first|], others[k - |first|]); }
    }
    if found.Some? && more.Some? {
      forall k | 0 <= k < |all| ensures At(whole, all[k]) == Some((found.value + more.value)[k]) {
        if k < |first| { assert At(whole, first[k]) == Some(found.value[k]); }
        else { assert At(whole, others[k - |first|]) == Some(more.value[k - |first|]); }
      }
    }
  }

  /** The walk collects exactly the outermost prefixed modules, in source order, each once. */
  lemma WalkCollectsOutermost(items: seq<Item>)
    requires Walk(items).Some?
    ensures var places := PlacesFrom(items, 0);
            && |Walk(items).value| == |places| && Increasing(places)
            && (forall p: Path :: p in places <==> Outermost(items, p))
            && (forall k :: 0 <= k < |places| ==> At(items, places[k]) == Some(Walk(items).value[k]))
  {
    PlacesInList(items, 0, items);
  }

  /** The place holds a module without a body that the walk would have to enter. */
  ghost predicate Blocks(items: seq<Item>, path: Path) {
    && At(items, path).Some? && At(items, path).value.ModDeclaration? && !IsAccountModule(At(items, path).value)
    && forall n :: 0 < n < |path| ==> At(items, path[..n]).Some? && !IsAccountModule(At(items, path[..n]).value)
  }

  lemma {:induction false} PanicHasPlace(items: seq<Item>) returns (path: Path)
    requires Walk(items).None?
    ensures Blocks(items, path)
    decreases items
  {
    if WalkItem(items[0]).None? {
      if items[0].ModDeclaration? {
        path := [0];
      } else {
        var inner := PanicHasPlace(items[0].content);
        path := [0] + inner;
        assert path[1..] == inner;
        forall n | 0 < n < |path| ensures At(items, path[..n]).Some? && !IsAccountModule(At(items, path[..n]).value) {
          if n > 1 { assert path[..n][1..] == inner[..n - 1]; }
        }
      }
    } else {
      var later := PanicHasPlace(items[1..]);
      path := [later[0] + 1] + later[1..];
      assert path[1..] == later[1..];
      forall n | 0 < n < |path| ensures At(items, path[..n]).Some? && !IsAccountModule(At(items, path[..n]).value) {
        assert path[..n][1..] == later[..n][1..];
        assert At(items, path[..n]) == At(items[1..], later[..n]);
      }
    }
  }

  lemma {:induction false} PlacePanics(items: seq<Item>, path: Path)
    requires Blocks(items, path)
    ensures Walk(items).None?
    decreases |path|
  {
    var i := path[0];
    if |path| > 1 {
      assert path[..1] == [i];
      assert At(items, path[..1]).Some? && !IsAccountModule(items[i]);
      var inner := items[i].content;
      forall n | 0 < n < |path[1..]|
        ensures At(inner, path[1..][..n]).Some? && !IsAccountModule(At(inner, path[1..][..n]).value)
      {
        assert path[..n + 1][1..] == path[1..][..n];
        assert At(items, path[..n + 1]).Some? && !IsAccountModule(At(items, path[..n + 1]).value);
      }
      PlacePanics(inner, path[1..]);
    }
    FailurePropagates(items, i);
  }

  lemma {:induction false} FailurePropagates(items: seq<Item>, i: nat)
    requires i < |items| && WalkItem(items[i]).None?
    ensures Walk(items).None?
  {
    if i > 0 { FailurePropagates(items[1..], i - 1); }
  }

  /** The walk panics exactly when it must enter some module that has no body. */
  lemma WalkPanics(items: seq<Item>)
    ensures Walk(items).None? <==> exists path: Path :: Blocks(items, path)
  {
    if Walk(items).None? {
      var path := PanicHasPlace(items);
    }
    if path: Path :| Blocks(items, path) {
      PlacePanics(items, path);
    }
  }

  // ------------------------------------------------------------------ joining accounts to instructions

  /** Conversion of a module's suffix to a struct name is a library function. */
  type Camel = string -> string

  function StructName(camel: Camel, m: Item): string
    requires IsAccountModule(m)
  {
    camel(m.name[|ACCOUNT_MOD_PREFIX|..])
  }

  function FindStruct(items: seq<Item>, name: string): (s: Option<Item>)
    ensures s.Some? ==> s.value.Struct? && s.value.name == name
  {
    if items == [] then None
    else if items[0].Struct? && items[0].name == name then Some(items[0])
    else FindStruct(items[1..], name)
  }

  /** The account fields a module declares; None is an error that stops the whole parse. */
  function Declared(camel: Camel, m: Item): Option<seq<Field>>
    requires IsAccountModule(m)
  {
    if m.ModDeclaration? then None
    else
      match FindStruct(m.content, StructName(camel, m))
      case None => None
      case Some(s) => if s.fields.Unnamed? then None else Some(FieldsOf(s))
  }

  lemma {:induction false} FirstStruct(items: seq<Item>, name: string)
    ensures FindStruct(items, name).None? <==>
            forall i :: 0 <= i < |items| ==> !(items[i].Struct? && items[i].name == name)
    ensures FindStruct(items, name).Some? ==>
            exists i :: 0 <= i < |items| && items[i] == FindStruct(items, name).value
              && forall j :: 0 <= j < i ==> !(items[j].Struct? && items[j].name == name)
  {
    if items != [] && !(items[0].Struct? && items[0].name == name) {
      FirstStruct(items[1..], name);
      assert forall i :: 0 <= i < |items| - 1 ==> items[1..][i] == items[i + 1];
      if FindStruct(items, name).Some? {
        var i :| 0 <= i < |items[1..]| && items[1..][i] == FindStruct(items[1..], name).value
                 && forall j :: 0 <= j < i ==> !(items[1..][j].Struct? && items[1..][j].name == name);
        assert items[i + 1] == FindStruct(items, name).value;
        forall j | 0 <= j < i + 1 ensures !(items[j].Struct? && items[j].name == name) {
          if j > 0 { assert items[1..][j - 1] == items[j]; }
        }
      }
    }
  }

  /** What a module declares are the fields that its own first struct of the group's name is written with. */
  lemma DeclaresWhatIsWritten(camel: Camel, m: Item)
    requires IsAccountModule(m)
    ensures Declared(camel, m).Some? ==> m.Mod? && Writes(m.content, StructName(camel, m), Declared(camel, m).value)
    ensures Declared(camel, m).None? && m.Mod? ==>
              forall i :: 0 <= i < |m.content| && Matches(m.content[i], StructName(camel, m)) ==>
                exists j :: 0 <= j < i && m.content[j] == Struct(StructName(camel, m), Unnamed)
  {
    if m.Mod? {
      var name := StructName(camel, m);
      FirstStruct(m.content, name);
      if FindStruct(m.content, name).Some? {
        var i :| 0 <= i < |m.content| && m.content[i] == FindStruct(m.content, name).value
                 && forall j :: 0 <= j < i ==> !(m.content[j].Struct? && m.content[j].name == name);
        if Declared(camel, m).Some? {
          FieldsAsWritten(m.content, i, name);
        } else {
          assert m.content[i] == Struct(name, Unnamed);
        }
      }
    }
  }

  ghost predicate AllAccountModules(mods: seq<Item>) {
    forall i :: 0 <= i < |mods| ==> IsAccountModule(mods[i])
  }

  /** The fields of the last module that declares the group, if any does. */
  function LastDeclared(camel: Camel, mods: seq<Item>, group: string): Option<seq<Field>>
    requires AllAccountModules(mods)
  {
    if mods == [] then None
    else
      var last := |mods| - 1;
      if StructName(camel, mods[last]) == group && Declared(camel, mods[last]).Some? then Declared(camel, mods[last])
      else LastDeclared(camel, mods[..last], group)
  }

  /** The module declares the group with these fields. */
  predicate Declares(camel: Camel, m: Item, group: string, fields: seq<Field>) {
    IsAccountModule(m) && StructName(camel, m) == group && Declared(camel, m) == Some(fields)
  }

  /** A group gets the fields of the last module that declares it, and none when no module does. */
  lemma {:induction false} LastDeclaresIt(camel: Camel, mods: seq<Item>, group: string)
    requires AllAccountModules(mods)
    ensures LastDeclared(camel, mods, group).None? <==>
            forall i, fields :: 0 <= i < |mods| ==> !Declares(camel, mods[i], group, fields)
    ensures LastDeclared(camel, mods, group).Some? ==>
            exists i :: 0 <= i < |mods| && Declares(camel, mods[i], group, LastDeclared(camel, mods, group).value)
              && forall j, fields :: i < j < |mods| ==> !Declares(camel, mods[j], group, fields)
  {
    if mods != [] {
      var last := |mods| - 1;
      if StructName(camel, mods[last]) == group && Declared(camel, mods[last]).Some? {
        assert Declares(camel, mods[last], group, Declared(camel, mods[last]).value);
      } else {
        LastDeclaresIt(camel, mods[..last], group);
        assert forall fields :: !Declares(camel, mods[last], group, fields);
        if LastDeclared(camel, mods, group).Some? {
          var i :| 0 <= i < last && Declares(camel, mods[..last][i], group, LastDeclared(camel, mods, group).value)
                   && forall j, fields :: i < j < last ==> !Declares(camel, mods[..last][j], group, fields);
          forall j, fields | i < j < |mods| ensures !Declares(camel, mods[j], group, fields) {
            if j < last { assert mods[..last][j] == mods[j]; }
          }
          assert mods[..last][i] == mods[i];
        } else {
          forall i, fields | 0 <= i < |mods| ensures !Declares(camel, mods[i], group, fields) {
            if i < last { assert mods[..last][i] == mods[i]; }
          }
        }
      }
    }
  }

  ghost predicate JoinedTo(camel: Camel, mods: seq<Item>, before: seq<Pair>, after: seq<Pair>)
    requires AllAccountModules(mods)
  {
    && |after| == |before|
    && forall k :: 0 <= k < |before| ==>
         after[k] == before[k].(accounts := match LastDeclared(camel, mods, before[k].group)
                                            case Some(fields) => fields
                                            case None => before[k].accounts)
  }

  /** Gives the fields to every pair of the group, in place. */
  method AssignAccounts(before: seq<Pair>, group: string, accounts: seq<Field>) returns (pairs: seq<Pair>)
    ensures |pairs| == |before|
    ensures forall j :: 0 <= j < |pairs| ==>
              pairs[j] == if before[j].group == group then before[j].(accounts := accounts) else before[j]
  {
    pairs := before;
    var k := 0;
    while k < |pairs|
      invariant k <= |pairs| == |before|
      invariant forall j :: 0 <= j < k ==>
                  pairs[j] == if before[j].group == group then before[j].(accounts := accounts) else before[j]
      invariant forall j :: k <= j < |pairs| ==> pairs[j] == before[j]
    {
      if pairs[k].group == group {
        pairs := pairs[k := pairs[k].(accounts := accounts)];
      }
      k := k + 1;
    }
  }

  /** For each account module, its fields go to every instruction of its group.  The join
      fails exactly when some module does not declare its struct with named fields or none; otherwise
      each pair ends with the fields of the last module of its group, or what it had. */
  method JoinAccounts(camel: Camel, mods: seq<Item>, before: seq<Pair>) returns (pairs: seq<Pair>, failed: bool)
    requires AllAccountModules(mods)
    ensures failed <==> exists i :: 0 <= i < |mods| && Declared(camel, mods[i]).None?
    ensures !failed ==> JoinedTo(camel, mods, before, pairs)
  {
    pairs, failed := before, false;
    var i := 0;
    while i < |mods|
      invariant i <= |mods|
      invariant forall j :: 0 <= j < i ==> Declared(camel, mods[j]).Some?
      invariant JoinedTo(camel, mods[..i], before, pairs)
    {
      var m := mods[i];
      var name := StructName(camel, m);
      if m.ModDeclaration? { return pairs, true; }
      var s := FindStruct(m.content, name);
      if s.None? || s.value.fields.Unnamed? { return pairs, true; }
      pairs := AssignAccounts(pairs, name, FieldsOf(s.value));
      assert mods[..i + 1][..i] == mods[..i];
      i := i + 1;
    }
    assert mods[..|mods|] == mods;
  }

  // ------------------------------------------------------------------ the whole parse

  /** An instruction handler: its name, the name of its instruction struct, and its account group. */
  datatype Handler = Handler(name: string, structName: string, group: string)

  datatype Parsed = Parsed(pairs: seq<Pair>) | ParseError | Panic

  predicate Reserved(item: Item) {
    IsModule(item) && (item.name == "__private" || item.name == "instruction")
  }

  function AccountSide(file: seq<Item>): seq<Item> {
    if file == [] then [] else (if Reserved(file[0]) then [] else [file[0]]) + AccountSide(file[1..])
  }

  /** The last module of that name wins. */
  function InstructionMod(file: seq<Item>): (m: Option<Item>)
    ensures m.Some? ==> IsModule(m.value)
  {
    if file == [] then None
    else
      var last := file[|file| - 1];
      if IsModule(last) && last.name == "instruction" then Some(last) else InstructionMod(file[..|file| - 1])
  }

  predicate IsInstructionMod(m: Item) {
    (m.Mod? || m.ModDeclaration?) && m.name == "instruction"
  }

  predicate NoInstructionMod(file: seq<Item>, from: nat) {
    forall i :: from <= i < |file| ==> !IsInstructionMod(file[i])
  }

  predicate LastInstructionModAt(file: seq<Item>, m: Item, i: int) {
    0 <= i < |file| && file[i] == m && IsInstructionMod(m) && NoInstructionMod(file, i + 1)
  }

  lemma InstructionModsBefore(file: seq<Item>)
    requires file != [] && !IsInstructionMod(file[|file| - 1])
    ensures NoInstructionMod(file, 0) <==> NoInstructionMod(file[..|file| - 1], 0)
    ensures forall m, i :: LastInstructionModAt(file[..|file| - 1], m, i) ==> LastInstructionModAt(file, m, i)
  {
    var shorter := file[..|file| - 1];
    if NoInstructionMod(shorter, 0) {
      forall i | 0 <= i < |file| ensures !IsInstructionMod(file[i]) {
        if i < |shorter| { assert shorter[i] == file[i]; }
      }
    }
    forall m, i | LastInstructionModAt(shorter, m, i) ensures LastInstructionModAt(file, m, i) {
      forall j | i < j < |file| ensures !IsInstructionMod(file[j]) {
        if j < |shorter| { assert shorter[j] == file[j]; }
      }
    }
  }

  /** The instruction structs come from the file's last module of that name. */
  lemma {:induction false} LastInstructionMod(file: seq<Item>)
    ensures InstructionMod(file).None? <==> NoInstructionMod(file, 0)
    ensures InstructionMod(file).Some? ==> exists i :: LastInstructionModAt(file, InstructionMod(file).value, i)
  {
    if file != [] {
      var last := |file| - 1;
      if IsInstructionMod(file[last]) {
        assert LastInstructionModAt(file, file[last], last);
      } else {
        LastInstructionMod(file[..last]);
        InstructionModsBefore(file);
        if InstructionMod(file).Some? {
          var i :| LastInstructionModAt(file[..last], InstructionMod(file).value, i);
          assert LastInstructionModAt(file, InstructionMod(file).value, i);
        }
      }
    }
  }

  /** Everything else but the private module is walked for account modules. */
  lemma {:induction false} AccountSideIsTheRest(file: seq<Item>, item: Item)
    ensures multiset(AccountSide(file))[item] ==
            if (item.Mod? || item.ModDeclaration?) && (item.name == "__private" || item.name == "instruction") then 0
            else multiset(file)[item]
  {
    if file != [] {
      AccountSideIsTheRest(file[1..], item);
      assert file == [file[0]] + file[1..];
    }
  }

  function StructNames(handlers: seq<Handler>): (names: seq<string>)
    ensures |names| == |handlers| && forall k :: 0 <= k < |handlers| ==> names[k] == handlers[k].structName
  {
    seq(|handlers|, k requires 0 <= k < |handlers| => handlers[k].structName)
  }

  lemma WalkedAreAccountModules(items: seq<Item>)
    requires Walk(items).Some?
    ensures AllAccountModules(Walk(items).value)
  {
    WalkCollectsOutermost(items);
    var places := PlacesFrom(items, 0);
    forall k | 0 <= k < |places| ensures IsAccountModule(Walk(items).value[k]) {
      assert places[k] in places;
    }
  }

  lemma {:induction false} AccountSideStep(file: seq<Item>, i: nat)
    requires i < |file|
    ensures AccountSide(file[..i + 1]) == AccountSide(file[..i]) + if Reserved(file[i]) then [] else [file[i]]
  {
    if i == 0 {
      assert file[..1] == [file[0]] && file[..0] == [];
    } else {
      assert file[..i + 1][1..] == file[1..][..i] && file[..i][1..] == file[1..][..i - 1];
      AccountSideStep(file[1..], i - 1);
    }
  }

  lemma {:induction false} WalkAppend(items: seq<Item>, m: Item)
    ensures Walk(items + [m]) == if Walk(items).None? || WalkItem(m).None? then None
                                 else Some(Walk(items).value + WalkItem(m).value)
  {
    if items == [] {
      assert items + [m] == [m] && [m][1..] == [];
      if WalkItem(m).Some? {
        var none: seq<Item> := [];
        assert Walk([m]) == Some(WalkItem(m).value + none) && WalkItem(m).value + none == none + WalkItem(m).value;
      }
    } else {
      assert (items + [m])[1..] == items[1..] + [m] && (items + [m])[0] == items[0];
      WalkAppend(items[1..], m);
      if Walk(items).Some? && WalkItem(m).Some? {
        var first, rest, last := WalkItem(items[0]).value, Walk(items[1..]).value, WalkItem(m).value;
        assert first + (rest + last) == first + rest + last;
      }
    }
  }

  /** One scan for the modules, then the instruction structs, then the accounts. */
  method Parse(camel: Camel, file: seq<Item>, handlers: seq<Handler>) returns (r: Parsed)
    ensures r.Panic? <==> Walk(AccountSide(file)).None?
    ensures !r.Panic? ==>
              var mods := Walk(AccountSide(file)).value;
              var im := InstructionMod(file);
              (r.Parsed? <==> && im.Some? && im.value.Mod? && Scan(im.value.content, StructNames(handlers)).Some?
                              && (forall i :: 0 <= i < |mods| ==>
                                IsAccountModule(mods[i]) && Declared(camel, mods[i]).Some?))
    ensures r.Parsed? ==>
              var mods := Walk(AccountSide(file)).value;
              && AllAccountModules(mods) && |r.pairs| == |handlers|
              && |Scan(InstructionMod(file).value.content, StructNames(handlers)).value| == |handlers|
              && forall k :: 0 <= k < |handlers| ==>
                   && r.pairs[k].instruction == handlers[k].name && r.pairs[k].group == handlers[k].group
                   && r.pairs[k].parameters == Scan(InstructionMod(file).value.content, StructNames(handlers)).value[k]
                   && r.pairs[k].accounts == match LastDeclared(camel, mods, handlers[k].group)
                                             case Some(fields) => fields
                                             case None => []
  {
    var modInstruction: Option<Item> := None;
    var accountMods: seq<Item> := [];
    var i := 0;
    while i < |file|
      invariant i <= |file| && modInstruction == InstructionMod(file[..i])
      invariant Walk(AccountSide(file[..i])) == Some(accountMods)
    {
      assert file[..i + 1][..i] == file[..i];
      AccountSideStep(file, i);
      if IsModule(file[i]) {
        if file[i].name == "instruction" {
          modInstruction := Some(file[i]);
        } else if file[i].name != "__private" {
          WalkAppend(AccountSide(file[..i]), file[i]);
          var panicked;
          accountMods, panicked := SetAccountModules(accountMods, file[i]);
          if panicked {
            PanicSpreads(file, i);
            return Panic;
          }
        }
      } else {
        WalkAppend(AccountSide(file[..i]), file[i]);
        assert accountMods + [] == accountMods;
      }
      if Reserved(file[i]) { assert AccountSide(file[..i]) + [] == AccountSide(file[..i]); }
      i := i + 1;
    }
    assert file[..|file|] == file;
    WalkedAreAccountModules(AccountSide(file));
    if modInstruction.None? || modInstruction.value.ModDeclaration? { return ParseError; }
    var parameters := ScanInstructions(modInstruction.value.content, StructNames(handlers));
    if parameters.None? { return ParseError; }
    ScanLength(modInstruction.value.content, StructNames(handlers));
    var pairs := seq(|handlers|, k requires 0 <= k < |handlers| =>
                       Pair(handlers[k].name, parameters.value[k], handlers[k].group, []));
    var failed;
    pairs, failed := JoinAccounts(camel, accountMods, pairs);
    if failed { return ParseError; }
    r := Parsed(pairs);
  }

  lemma {:induction false} ScanLength(items: seq<Item>, names: seq<string>)
    requires Scan(items, names).Some?
    ensures |Scan(items, names).value| == |names|
    decreases |items|
  {
    if names != [] {
      if Matches(items[0], names[0]) { ScanLength(items[1..], names[1..]); } else { ScanLength(items[1..], names); }
    }
  }

  lemma {:induction false} PanicSpreads(file: seq<Item>, i: nat)
    requires i < |file| && !Reserved(file[i]) && WalkItem(file[i]).None?
    ensures Walk(AccountSide(file)).None?
  {
    if i > 0 {
      PanicSpreads(file[1..], i - 1);
    }
    if Reserved(file[0]) {
      assert AccountSide(file) == AccountSide(file[1..]);
    } else {
      assert AccountSide(file)[0] == file[0] && AccountSide(file)[1..] == AccountSide(file[1..]);
    }
  }
}
