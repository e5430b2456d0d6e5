/**
 * What the module graph pass guarantees: the plain modules it returns are
 * exactly the non-endpoint blocks in file order, their names and aliases are
 * pairwise distinct and were free in the registry, endpoints are never
 * checked against or entered into the registry, and each failure mode
 * happens where the pass places it.
 */
module ModuleGraphProperties {
  import opened Wrappers
  import opened ModuleRegistry
  import opened ModuleGraph
  import opened Text

  function SetOf(xs: seq<string>): set<string> {
    set x | x in xs
  }

  /** The blocks no endpoint factory claims, in file order. */
  function ModuleBlocks(nodes: seq<Node>, ef: map<string, EndpointFactory>): seq<Node> {
    if nodes == [] then []
    else (if nodes[0].name in ef then [] else [nodes[0]]) + ModuleBlocks(nodes[1..], ef)
  }

  /** The blocks an endpoint factory claims, in file order. */
  function EndpointBlocks(nodes: seq<Node>, ef: map<string, EndpointFactory>): seq<Node> {
    if nodes == [] then []
    else (if nodes[0].name in ef then [nodes[0]] else []) + EndpointBlocks(nodes[1..], ef)
  }

  /** The entry a plain-module block gets. */
  function AsModule(b: Node): ModInfo {
    ModInfo(Instance(b.name, InstanceName(b)), b)
  }

  function AsModules(blocks: seq<Node>): seq<ModInfo> {
    if blocks == [] then [] else [AsModule(blocks[0])] + AsModules(blocks[1..])
  }

  /** Every one of the given blocks has an endpoint factory, and that factory succeeds on it. */
  predicate EndpointsBuild(blocks: seq<Node>, ef: map<string, EndpointFactory>) {
    forall k :: 0 <= k < |blocks| ==> blocks[k].name in ef && ef[blocks[k].name](blocks[k].name, blocks[k].args).Ok?
  }

  /** Every one of the given blocks has a plain-module factory, and that factory reports no error on it. */
  predicate ModulesBuild(blocks: seq<Node>, mf: map<string, ModuleFactory>) {
    forall k :: 0 <= k < |blocks| ==>
      blocks[k].name in mf && mf[blocks[k].name](blocks[k].name, InstanceName(blocks[k]), Aliases(blocks[k])).None?
  }

  /** The entry an endpoint block gets: the instance its factory returned, with the block. */
  function AsEndpoint(b: Node, ef: map<string, EndpointFactory>): ModInfo
    requires b.name in ef && ef[b.name](b.name, b.args).Ok?
  {
    ModInfo(ef[b.name](b.name, b.args).value, b)
  }

  function AsEndpoints(blocks: seq<Node>, ef: map<string, EndpointFactory>): seq<ModInfo>
    requires EndpointsBuild(blocks, ef)
  {
    if blocks == [] then [] else [AsEndpoint(blocks[0], ef)] + AsEndpoints(blocks[1..], ef)
  }

  /** Each alias of the block is recorded as an alias of the block's instance name. */
  predicate AliasesRecorded(aliases: map<string, string>, b: Node) {
    forall a :: a in Aliases(b) ==> a in aliases && aliases[a] == InstanceName(b)
  }

  /** The instance names of the given blocks, in order. */
  function InstanceNames(blocks: seq<Node>): seq<string> {
    if blocks == [] then [] else [InstanceName(blocks[0])] + InstanceNames(blocks[1..])
  }

  /** The aliases of the given blocks, block after block. */
  function AllAliases(blocks: seq<Node>): seq<string> {
    if blocks == [] then [] else Aliases(blocks[0]) + AllAliases(blocks[1..])
  }

  /** The names the given blocks claim, block after block. */
  function AllNames(blocks: seq<Node>): seq<string> {
    if blocks == [] then [] else BlockNames(blocks[0]) + AllNames(blocks[1..])
  }

  lemma DistinctAppend(a: seq<string>, b: seq<string>)
    requires Distinct(a) && Distinct(b)
    requires forall x :: x in a ==> x !in b
    ensures Distinct(a + b)
  {
    forall i, j | 0 <= i < j < |a + b|
      ensures (a + b)[i] != (a + b)[j]
    {
      if j < |a| {
      } else if i >= |a| {
        assert (a + b)[i] == b[i - |a|] && (a + b)[j] == b[j - |a|];
      } else {
        assert (a + b)[i] in a && (a + b)[j] == b[j - |a|];
      }
    }
  }

  /** A block with no arguments is named after its type and has no aliases; otherwise its arguments are its names. */
  lemma BlockNaming(b: Node)
    ensures |b.args| == 0 ==> InstanceName(b) == b.name && Aliases(b) == [] && BlockNames(b) == [b.name]
    ensures |b.args| > 0 ==> InstanceName(b) == b.args[0] && Aliases(b) == b.args[1..] && BlockNames(b) == b.args
  {
  }

  /**
   * `t'` is `t` with `aliases` registered as aliases of `instName`: the
   * aliases are distinct and were free in `t`, each now maps to `instName`,
   * the alias entries of `t` are kept and no other alias is added.
   */
  predicate AliasesAdded(t: NameTable, t': NameTable, instName: string, aliases: seq<string>) {
    && Distinct(aliases)
    && (forall a :: a in aliases ==> !t.Has(a))
    && (forall a :: a in aliases ==> a in t'.aliases && t'.aliases[a] == instName)
    && (forall n :: n in t.aliases ==> n in t'.aliases && t'.aliases[n] == t.aliases[n])
    && t'.aliases.Keys == t.aliases.Keys + SetOf(aliases)
  }

  /**
   * A completed alias loop registered every alias, each one distinct and
   * previously free, as an alias of the instance name; the entries already
   * there are kept and nothing else is added.
   */
  lemma {:induction false} AliasesRegistered(t: NameTable, instName: string, aliases: seq<string>)
    requires RegisterAliases(t, instName, aliases).1.None?
    ensures var t' := RegisterAliases(t, instName, aliases).0;
      && AliasesAdded(t, t', instName, aliases)
      && t'.instances == t.instances
      && t'.Taken() == t.Taken() + SetOf(aliases)
    decreases |aliases|
  {
    if aliases != [] {
      var t2 := t.(aliases := t.aliases[aliases[0] := instName]);
      AliasesRegistered(t2, instName, aliases[1..]);
      assert t2.Taken() == t.Taken() + {aliases[0]};
      assert forall a :: a in aliases ==> a == aliases[0] || a in aliases[1..];
      assert SetOf(aliases) == {aliases[0]} + SetOf(aliases[1..]);
    }
  }

  /**
   * The alias loop stops at the alias at `k` exactly when the aliases before
   * it go through and leave a table in which `aliases[k]` is taken.
   */
  predicate ClashAt(t: NameTable, instName: string, aliases: seq<string>, k: int)
    requires 0 <= k < |aliases|
  {
    var (t', clash) := RegisterAliases(t, instName, aliases);
    && clash == Some(aliases[k])
    && RegisterAliases(t, instName, aliases[..k]) == (t', None)
    && t'.Has(aliases[k])
  }

  lemma {:induction false} ClashIsFirst(t: NameTable, instName: string, aliases: seq<string>)
    requires RegisterAliases(t, instName, aliases).1.Some?
    ensures exists k :: 0 <= k < |aliases| && ClashAt(t, instName, aliases, k)
    decreases |aliases|
  {
    if t.Has(aliases[0]) {
      assert aliases[..0] == [];
      assert ClashAt(t, instName, aliases, 0);
    } else {
      var t2 := t.(aliases := t.aliases[aliases[0] := instName]);
      ClashIsFirst(t2, instName, aliases[1..]);
      var k :| 0 <= k < |aliases[1..]| && ClashAt(t2, instName, aliases[1..], k);
      var prefix := aliases[..k + 1];
      assert prefix[0] == aliases[0] && prefix[1..] == aliases[1..][..k];
      assert RegisterAliases(t, instName, prefix) == RegisterAliases(t2, instName, aliases[1..][..k]);
      assert ClashAt(t, instName, aliases, k + 1);
    }
  }

  /**
   * An alias loop that stops at a clash stops at the first alias that is
   * taken when its turn comes: the aliases before it are registered as
   * aliases of the instance name, and stay so.
   */
  lemma AliasClash(t: NameTable, instName: string, aliases: seq<string>)
    requires RegisterAliases(t, instName, aliases).1.Some?
    ensures var (t', clash) := RegisterAliases(t, instName, aliases);
      && clash.value in aliases
      && t'.Has(clash.value)
      && t'.instances == t.instances
      && t.Taken() <= t'.Taken() <= t.Taken() + SetOf(aliases)
      && exists k :: 0 <= k < |aliases| && ClashAt(t, instName, aliases, k) && AliasesAdded(t, t', instName, aliases[..k])
  {
    ClashIsFirst(t, instName, aliases);
    var k :| 0 <= k < |aliases| && ClashAt(t, instName, aliases, k);
    AliasesRegistered(t, instName, aliases[..k]);
    assert forall a :: a in aliases[..k] ==> a in aliases;
    assert SetOf(aliases[..k]) <= SetOf(aliases);
  }

  /**
   * A plain-module block that goes through claims distinct, previously free
   * names: its instance name maps to its entry and each alias to the
   * instance name; the entries already there are kept.
   */
  lemma ModuleStep(t: NameTable, b: Node, ef: map<string, EndpointFactory>, mf: map<string, ModuleFactory>)
    requires RegisterBlock(t, b, ef, mf).NewModule?
    ensures var s := RegisterBlock(t, b, ef, mf);
      && b.name !in ef && b.name in mf
      && s.info == AsModule(b)
      && Distinct(BlockNames(b))
      && (forall n :: n in BlockNames(b) ==> !t.Has(n))
      && s.table.instances == t.instances[InstanceName(b) := AsModule(b)]
      && AliasesRecorded(s.table.aliases, b)
      && (forall n :: n in t.aliases ==> n in s.table.aliases && s.table.aliases[n] == t.aliases[n])
      && s.table.aliases.Keys == t.aliases.Keys + SetOf(Aliases(b))
      && s.table.Taken() == t.Taken() + SetOf(BlockNames(b))
  {
    ModuleStepNames(t, b, ef, mf);
    ModuleStepTables(t, b, ef, mf);
  }

  lemma ModuleStepNames(t: NameTable, b: Node, ef: map<string, EndpointFactory>, mf: map<string, ModuleFactory>)
    requires RegisterBlock(t, b, ef, mf).NewModule?
    ensures var s := RegisterBlock(t, b, ef, mf);
      && Distinct(BlockNames(b))
      && (forall n :: n in BlockNames(b) ==> !t.Has(n))
      && s.table.Taken() == t.Taken() + SetOf(BlockNames(b))
  {
    var inst := InstanceName(b);
    var withInstance := t.(instances := t.instances[inst := AsModule(b)]);
    assert RegisterBlock(t, b, ef, mf).table == RegisterAliases(withInstance, inst, Aliases(b)).0;
    AliasesRegistered(withInstance, inst, Aliases(b));
    assert withInstance.Has(inst);
    assert withInstance.Taken() == t.Taken() + {inst};
    DistinctAppend([inst], Aliases(b));
    assert SetOf(BlockNames(b)) == {inst} + SetOf(Aliases(b));
  }

  lemma ModuleStepTables(t: NameTable, b: Node, ef: map<string, EndpointFactory>, mf: map<string, ModuleFactory>)
    requires RegisterBlock(t, b, ef, mf).NewModule?
    ensures var t' := RegisterBlock(t, b, ef, mf).table;
      && t'.instances == t.instances[InstanceName(b) := AsModule(b)]
      && AliasesRecorded(t'.aliases, b)
      && (forall n :: n in t.aliases ==> n in t'.aliases && t'.aliases[n] == t.aliases[n])
      && t'.aliases.Keys == t.aliases.Keys + SetOf(Aliases(b))
  {
    var inst := InstanceName(b);
    var withInstance := t.(instances := t.instances[inst := AsModule(b)]);
    assert RegisterBlock(t, b, ef, mf).table == RegisterAliases(withInstance, inst, Aliases(b)).0;
    AliasesRegistered(withInstance, inst, Aliases(b));
  }

  /** A block an endpoint factory claims neither looks at nor changes the registry's names. */
  lemma EndpointIgnoresRegistry(t: NameTable, t2: NameTable, b: Node, ef: map<string, EndpointFactory>, mf: map<string, ModuleFactory>)
    requires b.name in ef
    ensures ef[b.name](b.name, b.args).Ok? ==>
      RegisterBlock(t, b, ef, mf) == RegisterBlock(t2, b, ef, mf) == NewEndpoint(ModInfo(ef[b.name](b.name, b.args).value, b))
    ensures ef[b.name](b.name, b.args).Err? ==>
      RegisterBlock(t, b, ef, mf) == Abort(t, FactoryFailed(ef[b.name](b.name, b.args).error))
  {
  }

  /** A block of no known type ends the build, whatever the registry holds. */
  lemma UnknownModuleFails(t: NameTable, b: Node, ef: map<string, EndpointFactory>, mf: map<string, ModuleFactory>)
    requires b.name !in ef && b.name !in mf
    ensures RegisterBlock(t, b, ef, mf) == Abort(t, UnknownModule(b, b.name))
  {
  }

  /** A taken instance name ends the build before the factory is consulted: any factory gives the same outcome. */
  lemma DuplicateCheckedBeforeFactory(t: NameTable, b: Node, ef: map<string, EndpointFactory>, mf: map<string, ModuleFactory>, other: ModuleFactory)
    requires b.name !in ef && b.name in mf && t.Has(InstanceName(b))
    ensures RegisterBlock(t, b, ef, mf) == Abort(t, DuplicateName(b, InstanceName(b)))
    ensures RegisterBlock(t, b, ef, mf[b.name := other]) == RegisterBlock(t, b, ef, mf)
  {
  }

  /**
   * Aliases are checked only after the instance is registered: an alias
   * clash ends the build with the block's instance left in the registry,
   * and with the aliases before the clashing one registered to it.
   */
  lemma AliasClashKeepsInstance(t: NameTable, b: Node, ef: map<string, EndpointFactory>, mf: map<string, ModuleFactory>)
    requires b.name !in ef && b.name in mf && !t.Has(InstanceName(b))
    requires mf[b.name](b.name, InstanceName(b), Aliases(b)).None?
    requires RegisterBlock(t, b, ef, mf).Abort?
    ensures var s := RegisterBlock(t, b, ef, mf);
      && s.err.DuplicateName? && s.err.block == b && s.err.name in Aliases(b)
      && s.table.instances == t.instances[InstanceName(b) := AsModule(b)]
      && s.table.Has(s.err.name)
    ensures var s, withInstance := RegisterBlock(t, b, ef, mf), t.(instances := t.instances[InstanceName(b) := AsModule(b)]);
      exists k :: 0 <= k < |Aliases(b)| && s.err.name == Aliases(b)[k]
        && ClashAt(withInstance, InstanceName(b), Aliases(b), k)
        && AliasesAdded(withInstance, s.table, InstanceName(b), Aliases(b)[..k])
  {
    var withInstance := t.(instances := t.instances[InstanceName(b) := AsModule(b)]);
    assert RegisterBlock(t, b, ef, mf).table == RegisterAliases(withInstance, InstanceName(b), Aliases(b)).0;
    AliasClash(withInstance, InstanceName(b), Aliases(b));
  }

  /** `name name` (an alias equal to the block's own instance name) fails, and leaves `name` registered. */
  lemma SelfAliasFails(t: NameTable, b: Node, ef: map<string, EndpointFactory>, mf: map<string, ModuleFactory>)
    requires b.name !in ef && b.name in mf
    requires |b.args| >= 2 && b.args[1] == b.args[0] && !t.Has(b.args[0])
    requires mf[b.name](b.name, b.args[0], b.args[1..]).None?
    ensures var s := RegisterBlock(t, b, ef, mf);
      s.Abort? && s.err == DuplicateName(b, b.args[0]) && b.args[0] in s.table.instances
  {
    assert Aliases(b)[0] == b.args[0];
  }

  /**
   * A factory error ends the build with that error and the registry as it
   * was: an endpoint factory's error, or, for a plain module whose instance
   * name is free, the module factory's error.
   */
  lemma FactoryErrorAborts(t: NameTable, b: Node, ef: map<string, EndpointFactory>, mf: map<string, ModuleFactory>)
    ensures b.name in ef && ef[b.name](b.name, b.args).Err? ==>
      RegisterBlock(t, b, ef, mf) == Abort(t, FactoryFailed(ef[b.name](b.name, b.args).error))
    ensures b.name !in ef && b.name in mf && !t.Has(InstanceName(b)) && mf[b.name](b.name, InstanceName(b), Aliases(b)).Some? ==>
      RegisterBlock(t, b, ef, mf) == Abort(t, FactoryFailed(mf[b.name](b.name, InstanceName(b), Aliases(b)).value))
  {
  }

  lemma ModulesCons(b: Node, rest: seq<Node>, mf: map<string, ModuleFactory>)
    requires b.name in mf && mf[b.name](b.name, InstanceName(b), Aliases(b)).None? && ModulesBuild(rest, mf)
    ensures ModulesBuild([b] + rest, mf)
  {
    forall k | 0 <= k < |[b] + rest|
      ensures ([b] + rest)[k].name in mf
        && mf[([b] + rest)[k].name](([b] + rest)[k].name, InstanceName(([b] + rest)[k]), Aliases(([b] + rest)[k])).None?
    {
      if k > 0 {
        assert ([b] + rest)[k] == rest[k - 1];
      }
    }
  }

  lemma EndpointsCons(b: Node, rest: seq<Node>, ef: map<string, EndpointFactory>)
    requires b.name in ef && ef[b.name](b.name, b.args).Ok? && EndpointsBuild(rest, ef)
    ensures EndpointsBuild([b] + rest, ef)
    ensures AsEndpoints([b] + rest, ef) == [AsEndpoint(b, ef)] + AsEndpoints(rest, ef)
  {
    forall k | 0 <= k < |[b] + rest|
      ensures ([b] + rest)[k].name in ef && ef[([b] + rest)[k].name](([b] + rest)[k].name, ([b] + rest)[k].args).Ok?
    {
      if k > 0 {
        assert ([b] + rest)[k] == rest[k - 1];
      }
    }
    assert ([b] + rest)[1..] == rest;
  }

  /**
   * On a successful pass every remaining plain-module block's factory
   * reported no error, and the plain modules returned are the collected ones
   * followed by those blocks, in order.
   */
  lemma {:induction false} BuildShape(t: NameTable, nodes: seq<Node>, endpoints: seq<ModInfo>, mods: seq<ModInfo>,
                                      ef: map<string, EndpointFactory>, mf: map<string, ModuleFactory>)
    requires BuildFrom(t, nodes, endpoints, mods, ef, mf).1.Built?
    ensures ModulesBuild(ModuleBlocks(nodes, ef), mf)
    ensures var r := BuildFrom(t, nodes, endpoints, mods, ef, mf).1;
      && r.mods == mods + AsModules(ModuleBlocks(nodes, ef))
      && |r.endpoints| > 0
    decreases |nodes|
  {
    if nodes != [] {
      var b := nodes[0];
      match RegisterBlock(t, b, ef, mf)
      case NewEndpoint(info) =>
        BuildShape(t, nodes[1..], endpoints + [info], mods, ef, mf);
        assert ModuleBlocks(nodes, ef) == ModuleBlocks(nodes[1..], ef);
      case NewModule(t', info) =>
        assert info == AsModule(b);
        BuildShape(t', nodes[1..], endpoints, mods + [info], ef, mf);
        assert ModuleBlocks(nodes, ef) == [b] + ModuleBlocks(nodes[1..], ef);
        ModulesCons(b, ModuleBlocks(nodes[1..], ef), mf);
        assert AsModules([b] + ModuleBlocks(nodes[1..], ef)) == [info] + AsModules(ModuleBlocks(nodes[1..], ef)) by {
          assert ([b] + ModuleBlocks(nodes[1..], ef))[1..] == ModuleBlocks(nodes[1..], ef);
        }
      case Abort(_, _) =>
    }
  }

  /**
   * On a successful pass every remaining endpoint block's factory succeeded,
   * and the endpoints returned are the collected ones followed by the
   * instances those factories returned, in order.
   */
  lemma {:induction false} BuildEndpoints(t: NameTable, nodes: seq<Node>, endpoints: seq<ModInfo>, mods: seq<ModInfo>,
                                          ef: map<string, EndpointFactory>, mf: map<string, ModuleFactory>)
    requires BuildFrom(t, nodes, endpoints, mods, ef, mf).1.Built?
    ensures EndpointsBuild(EndpointBlocks(nodes, ef), ef)
    ensures BuildFrom(t, nodes, endpoints, mods, ef, mf).1.endpoints == endpoints + AsEndpoints(EndpointBlocks(nodes, ef), ef)
    decreases |nodes|
  {
    if nodes != [] {
      var b := nodes[0];
      match RegisterBlock(t, b, ef, mf)
      case NewEndpoint(info) =>
        BuildEndpoints(t, nodes[1..], endpoints + [info], mods, ef, mf);
        var rest := EndpointBlocks(nodes[1..], ef);
        assert b.name in ef && ef[b.name](b.name, b.args).Ok? && info == AsEndpoint(b, ef);
        assert EndpointBlocks(nodes, ef) == [b] + rest;
        EndpointsCons(b, rest, ef);
      case NewModule(t', info) =>
        BuildEndpoints(t', nodes[1..], endpoints, mods + [info], ef, mf);
        assert EndpointBlocks(nodes, ef) == EndpointBlocks(nodes[1..], ef);
      case Abort(_, _) =>
    }
  }

  /**
   * A successful pass claimed distinct names for the plain-module blocks,
   * none of them taken beforehand, and added exactly those to the registry.
   */
  lemma {:induction false} BuildNames(t: NameTable, nodes: seq<Node>, endpoints: seq<ModInfo>, mods: seq<ModInfo>,
                                      ef: map<string, EndpointFactory>, mf: map<string, ModuleFactory>)
    requires BuildFrom(t, nodes, endpoints, mods, ef, mf).1.Built?
    ensures var names := AllNames(ModuleBlocks(nodes, ef));
      && Distinct(names)
      && (forall n :: n in names ==> !t.Has(n))
      && BuildFrom(t, nodes, endpoints, mods, ef, mf).0.Taken() == t.Taken() + SetOf(names)
    decreases |nodes|
  {
    if nodes != [] {
      var b := nodes[0];
      match RegisterBlock(t, b, ef, mf)
      case NewEndpoint(info) =>
        BuildNames(t, nodes[1..], endpoints + [info], mods, ef, mf);
        assert ModuleBlocks(nodes, ef) == ModuleBlocks(nodes[1..], ef);
      case NewModule(t', info) =>
        ModuleStepNames(t, b, ef, mf);
        BuildNames(t', nodes[1..], endpoints, mods + [info], ef, mf);
        var own, rest := BlockNames(b), AllNames(ModuleBlocks(nodes[1..], ef));
        assert ModuleBlocks(nodes, ef) == [b] + ModuleBlocks(nodes[1..], ef);
        assert AllNames(ModuleBlocks(nodes, ef)) == own + rest;
        DistinctAppend(own, rest);
        assert SetOf(own + rest) == SetOf(own) + SetOf(rest);
      case Abort(_, _) =>
    }
  }

  /** The instance-table facts for a block followed by further blocks, from those for the further blocks. */
  lemma InstancesCons(t: NameTable, t': NameTable, t2: NameTable, b: Node, rest: seq<Node>)
    requires t'.instances == t.instances[InstanceName(b) := AsModule(b)]
    requires forall n :: n in t'.instances ==> n in t2.instances && t2.instances[n] == t'.instances[n]
    requires forall k :: 0 <= k < |rest| ==>
      InstanceName(rest[k]) in t2.instances && t2.instances[InstanceName(rest[k])] == AsModule(rest[k])
    requires t2.instances.Keys == t'.instances.Keys + SetOf(InstanceNames(rest))
    ensures forall k :: 0 <= k < |[b] + rest| ==>
      InstanceName(([b] + rest)[k]) in t2.instances && t2.instances[InstanceName(([b] + rest)[k])] == AsModule(([b] + rest)[k])
    ensures t2.instances.Keys == t.instances.Keys + SetOf(InstanceNames([b] + rest))
  {
    var blocks := [b] + rest;
    assert blocks[1..] == rest;
    assert InstanceNames(blocks) == [InstanceName(b)] + InstanceNames(rest);
    assert SetOf(InstanceNames(blocks)) == {InstanceName(b)} + SetOf(InstanceNames(rest));
    forall k | 0 <= k < |blocks|
      ensures InstanceName(blocks[k]) in t2.instances && t2.instances[InstanceName(blocks[k])] == AsModule(blocks[k])
    {
      if k > 0 {
        assert blocks[k] == rest[k - 1];
      }
    }
  }

  /** The alias-table facts for a block followed by further blocks, from those for the further blocks. */
  lemma AliasesCons(t: NameTable, t': NameTable, t2: NameTable, b: Node, rest: seq<Node>)
    requires AliasesRecorded(t'.aliases, b)
    requires t'.aliases.Keys == t.aliases.Keys + SetOf(Aliases(b))
    requires forall n :: n in t'.aliases ==> n in t2.aliases && t2.aliases[n] == t'.aliases[n]
    requires forall k :: 0 <= k < |rest| ==> AliasesRecorded(t2.aliases, rest[k])
    requires t2.aliases.Keys == t'.aliases.Keys + SetOf(AllAliases(rest))
    ensures forall k :: 0 <= k < |[b] + rest| ==> AliasesRecorded(t2.aliases, ([b] + rest)[k])
    ensures t2.aliases.Keys == t.aliases.Keys + SetOf(AllAliases([b] + rest))
  {
    var blocks := [b] + rest;
    assert blocks[1..] == rest;
    assert AllAliases(blocks) == Aliases(b) + AllAliases(rest);
    assert SetOf(AllAliases(blocks)) == SetOf(Aliases(b)) + SetOf(AllAliases(rest));
    forall k | 0 <= k < |blocks|
      ensures AliasesRecorded(t2.aliases, blocks[k])
    {
      if k > 0 {
        assert blocks[k] == rest[k - 1];
      }
    }
  }

  /** A successful pass keeps every entry the registry already had. */
  lemma {:induction false} BuildKeepsEntries(t: NameTable, nodes: seq<Node>, endpoints: seq<ModInfo>, mods: seq<ModInfo>,
                                             ef: map<string, EndpointFactory>, mf: map<string, ModuleFactory>)
    requires BuildFrom(t, nodes, endpoints, mods, ef, mf).1.Built?
    ensures var t2 := BuildFrom(t, nodes, endpoints, mods, ef, mf).0;
      && (forall n :: n in t.instances ==> n in t2.instances && t2.instances[n] == t.instances[n])
      && (forall n :: n in t.aliases ==> n in t2.aliases && t2.aliases[n] == t.aliases[n])
    decreases |nodes|
  {
    if nodes != [] {
      var b := nodes[0];
      match RegisterBlock(t, b, ef, mf)
      case NewEndpoint(info) =>
        BuildKeepsEntries(t, nodes[1..], endpoints + [info], mods, ef, mf);
      case NewModule(t', info) =>
        ModuleStepTables(t, b, ef, mf);
        BuildKeepsEntries(t', nodes[1..], endpoints, mods + [info], ef, mf);
      case Abort(_, _) =>
    }
  }

  /**
   * After a successful pass each plain-module block's instance name maps to
   * its entry, and the instance table gained exactly those names.
   */
  lemma {:induction false} BuildInstances(t: NameTable, nodes: seq<Node>, endpoints: seq<ModInfo>, mods: seq<ModInfo>,
                                          ef: map<string, EndpointFactory>, mf: map<string, ModuleFactory>)
    requires BuildFrom(t, nodes, endpoints, mods, ef, mf).1.Built?
    ensures var t2, blocks := BuildFrom(t, nodes, endpoints, mods, ef, mf).0, ModuleBlocks(nodes, ef);
      && (forall k :: 0 <= k < |blocks| ==>
            InstanceName(blocks[k]) in t2.instances && t2.instances[InstanceName(blocks[k])] == AsModule(blocks[k]))
      && t2.instances.Keys == t.instances.Keys + SetOf(InstanceNames(blocks))
    decreases |nodes|
  {
    if nodes != [] {
      var b := nodes[0];
      match RegisterBlock(t, b, ef, mf)
      case NewEndpoint(info) =>
        BuildInstances(t, nodes[1..], endpoints + [info], mods, ef, mf);
        assert ModuleBlocks(nodes, ef) == ModuleBlocks(nodes[1..], ef);
      case NewModule(t', info) =>
        ModuleStepTables(t, b, ef, mf);
        BuildInstances(t', nodes[1..], endpoints, mods + [info], ef, mf);
        BuildKeepsEntries(t', nodes[1..], endpoints, mods + [info], ef, mf);
        assert ModuleBlocks(nodes, ef) == [b] + ModuleBlocks(nodes[1..], ef);
        InstancesCons(t, t', BuildFrom(t', nodes[1..], endpoints, mods + [info], ef, mf).0, b, ModuleBlocks(nodes[1..], ef));
      case Abort(_, _) =>
    }
  }

  /**
   * After a successful pass each alias of each plain-module block maps to
   * that block's instance name, and the alias table gained exactly those
   * aliases.
   */
  lemma {:induction false} BuildAliases(t: NameTable, nodes: seq<Node>, endpoints: seq<ModInfo>, mods: seq<ModInfo>,
                                        ef: map<string, EndpointFactory>, mf: map<string, ModuleFactory>)
    requires BuildFrom(t, nodes, endpoints, mods, ef, mf).1.Built?
    ensures var t2, blocks := BuildFrom(t, nodes, endpoints, mods, ef, mf).0, ModuleBlocks(nodes, ef);
      && (forall k :: 0 <= k < |blocks| ==> AliasesRecorded(t2.aliases, blocks[k]))
      && t2.aliases.Keys == t.aliases.Keys + SetOf(AllAliases(blocks))
    decreases |nodes|
  {
    if nodes != [] {
      var b := nodes[0];
      match RegisterBlock(t, b, ef, mf)
      case NewEndpoint(info) =>
        BuildAliases(t, nodes[1..], endpoints + [info], mods, ef, mf);
        assert ModuleBlocks(nodes, ef) == ModuleBlocks(nodes[1..], ef);
      case NewModule(t', info) =>
        ModuleStepTables(t, b, ef, mf);
        BuildAliases(t', nodes[1..], endpoints, mods + [info], ef, mf);
        BuildKeepsEntries(t', nodes[1..], endpoints, mods + [info], ef, mf);
        assert ModuleBlocks(nodes, ef) == [b] + ModuleBlocks(nodes[1..], ef);
        AliasesCons(t, t', BuildFrom(t', nodes[1..], endpoints, mods + [info], ef, mf).0, b, ModuleBlocks(nodes[1..], ef));
      case Abort(_, _) =>
    }
  }

  /**
   * On success every factory succeeded: the plain modules are exactly the
   * non-endpoint blocks and the endpoints exactly the instances the endpoint
   * factories returned, in file order.
   */
  lemma BuiltInFileOrder(t: NameTable, nodes: seq<Node>, ef: map<string, EndpointFactory>, mf: map<string, ModuleFactory>)
    requires Build(t, nodes, ef, mf).1.Built?
    ensures ModulesBuild(ModuleBlocks(nodes, ef), mf)
    ensures Build(t, nodes, ef, mf).1.mods == AsModules(ModuleBlocks(nodes, ef))
    ensures EndpointsBuild(EndpointBlocks(nodes, ef), ef)
    ensures Build(t, nodes, ef, mf).1.endpoints == AsEndpoints(EndpointBlocks(nodes, ef), ef)
    ensures |Build(t, nodes, ef, mf).1.endpoints| > 0
  {
    BuildShape(t, nodes, [], [], ef, mf);
    BuildEndpoints(t, nodes, [], [], ef, mf);
  }

  /** On success every instance name and alias of a plain module is unique and was free before the pass. */
  lemma BuiltNamesUnique(t: NameTable, nodes: seq<Node>, ef: map<string, EndpointFactory>, mf: map<string, ModuleFactory>)
    requires Build(t, nodes, ef, mf).1.Built?
    ensures Distinct(AllNames(ModuleBlocks(nodes, ef)))
    ensures forall n :: n in AllNames(ModuleBlocks(nodes, ef)) ==> !t.Has(n)
    ensures Build(t, nodes, ef, mf).0.Taken() == t.Taken() + SetOf(AllNames(ModuleBlocks(nodes, ef)))
  {
    BuildNames(t, nodes, [], [], ef, mf);
  }

  /**
   * On success the registry keeps its old entries, maps each plain module's
   * instance name to its entry and each of its aliases to its instance name,
   * and gains no other name.
   */
  lemma BuiltTables(t: NameTable, nodes: seq<Node>, ef: map<string, EndpointFactory>, mf: map<string, ModuleFactory>)
    requires Build(t, nodes, ef, mf).1.Built?
    ensures var t2, blocks := Build(t, nodes, ef, mf).0, ModuleBlocks(nodes, ef);
      && (forall n :: n in t.instances ==> n in t2.instances && t2.instances[n] == t.instances[n])
      && (forall n :: n in t.aliases ==> n in t2.aliases && t2.aliases[n] == t.aliases[n])
      && (forall k :: 0 <= k < |blocks| ==>
            InstanceName(blocks[k]) in t2.instances && t2.instances[InstanceName(blocks[k])] == AsModule(blocks[k]))
      && (forall k :: 0 <= k < |blocks| ==> AliasesRecorded(t2.aliases, blocks[k]))
      && t2.instances.Keys == t.instances.Keys + SetOf(InstanceNames(blocks))
      && t2.aliases.Keys == t.aliases.Keys + SetOf(AllAliases(blocks))
  {
    BuildKeepsEntries(t, nodes, [], [], ef, mf);
    BuildInstances(t, nodes, [], [], ef, mf);
    BuildAliases(t, nodes, [], [], ef, mf);
  }

  /** Two plain-module blocks claiming one name, or a block claiming a name already taken, fail the build. */
  lemma DuplicateNamesFail(t: NameTable, nodes: seq<Node>, ef: map<string, EndpointFactory>, mf: map<string, ModuleFactory>)
    requires !Distinct(AllNames(ModuleBlocks(nodes, ef))) || exists n :: n in AllNames(ModuleBlocks(nodes, ef)) && t.Has(n)
    ensures Build(t, nodes, ef, mf).1.BuildFailed?
  {
    if Build(t, nodes, ef, mf).1.Built? {
      BuiltNamesUnique(t, nodes, ef, mf);
    }
  }

  /** Without an endpoint block the build fails. */
  lemma NoEndpointFails(t: NameTable, nodes: seq<Node>, ef: map<string, EndpointFactory>, mf: map<string, ModuleFactory>)
    requires EndpointBlocks(nodes, ef) == []
    ensures Build(t, nodes, ef, mf).1.BuildFailed?
  {
    if Build(t, nodes, ef, mf).1.Built? {
      BuiltInFileOrder(t, nodes, ef, mf);
    }
  }

  /** Endpoint blocks are not checked for name clashes: the same endpoint block twice is accepted. */
  lemma RepeatedEndpointAccepted(t: NameTable, b: Node, ef: map<string, EndpointFactory>, mf: map<string, ModuleFactory>)
    requires b.name in ef && ef[b.name](b.name, b.args).Ok?
    ensures var info := ModInfo(ef[b.name](b.name, b.args).value, b);
      Build(t, [b, b], ef, mf) == (t, Built([info, info], []))
  {
    var info := ModInfo(ef[b.name](b.name, b.args).value, b);
    assert RegisterBlock(t, b, ef, mf) == NewEndpoint(info);
    assert [b, b][0] == b && [b, b][1..] == [b];
    assert [] + [info] == [info] && [info] + [info] == [info, info];
    assert Build(t, [b, b], ef, mf) == BuildFrom(t, [b], [info], [], ef, mf);
    assert [b][0] == b && [b][1..] == [];
    assert BuildFrom(t, [b], [info], [], ef, mf) == BuildFrom(t, [], [info, info], [], ef, mf);
  }
}
