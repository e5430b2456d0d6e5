/**
 * The module graph builder (`RegisterModules` in mailchat.go and its twin in
 * mailcoin.go): one pass over the top-level configuration blocks, in file
 * order, that instantiates endpoints and plain modules and records the plain
 * modules' names and aliases in the registry.
 *
 * The pass is specified by the functions below on a value copy of the
 * registry's name tables; the method that mutates the registry is proved to
 * follow them, and the lemmas state what the pass guarantees.
 */
module ModuleGraph {
  import opened Wrappers
  import opened ModuleRegistry

  /** The instance name of a block: its first argument, or the block name when it has none. */
  function InstanceName(b: Node): string {
    if |b.args| == 0 then b.name else b.args[0]
  }

  /** The aliases of a block: the arguments after the first. */
  function Aliases(b: Node): seq<string> {
    if |b.args| == 0 then [] else b.args[1..]
  }

  /** Every name a plain-module block claims. */
  function BlockNames(b: Node): seq<string> {
    [InstanceName(b)] + Aliases(b)
  }

  datatype BuildError =
    | FactoryFailed(reason: string)              // an error returned by a factory, passed on as it is
    | UnknownModule(block: Node, modName: string) // "unknown module or global directive"
    | DuplicateName(block: Node, name: string)    // "config block named ... already exists"
    | NoEndpoint                                  // "at least one endpoint should be configured"

  /** What the builder returns: both lists on success, neither on failure. */
  datatype BuildResult = Built(endpoints: seq<ModInfo>, mods: seq<ModInfo>) | BuildFailed(err: BuildError)

  /** The alias loop: register each alias in turn, stopping at the first one already taken. */
  function RegisterAliases(t: NameTable, instName: string, aliases: seq<string>): (r: (NameTable, Option<string>))
    ensures r.0.instances == t.instances
    ensures r.1.Some? ==> r.1.value in aliases && r.0.Has(r.1.value)
    decreases |aliases|
  {
    if aliases == [] then (t, None)
    else if t.Has(aliases[0]) then (t, Some(aliases[0]))
    else RegisterAliases(t.(aliases := t.aliases[aliases[0] := instName]), instName, aliases[1..])
  }

  /** The outcome of one block: a new endpoint, a new plain module (and table), or the build's end. */
  datatype BlockStep =
    | NewEndpoint(info: ModInfo)
    | NewModule(table: NameTable, info: ModInfo)
    | Abort(table: NameTable, err: BuildError)

  /** The body of the loop over blocks. */
  function RegisterBlock(t: NameTable, b: Node, ef: map<string, EndpointFactory>, mf: map<string, ModuleFactory>): (s: BlockStep)
    ensures s.NewEndpoint? <==> b.name in ef && ef[b.name](b.name, b.args).Ok?
    ensures s.NewEndpoint? ==> s.info == ModInfo(ef[b.name](b.name, b.args).value, b)
    ensures s.NewModule? ==> b.name !in ef && b.name in mf && s.info == ModInfo(Instance(b.name, InstanceName(b)), b)
    ensures s.NewModule? ==> !t.Has(InstanceName(b)) && mf[b.name](b.name, InstanceName(b), Aliases(b)).None?
    ensures s.Abort? && s.table != t ==> s.err.DuplicateName? && s.err.block == b && s.err.name in Aliases(b)
  {
    if b.name in ef then
      match ef[b.name](b.name, b.args)
      case Err(e) => Abort(t, FactoryFailed(e))
      case Ok(inst) => NewEndpoint(ModInfo(inst, b))
    else if b.name !in mf then
      Abort(t, UnknownModule(b, b.name))
    else if t.Has(InstanceName(b)) then
      Abort(t, DuplicateName(b, InstanceName(b)))
    else
      match mf[b.name](b.name, InstanceName(b), Aliases(b))
      case Some(e) => Abort(t, FactoryFailed(e))
      case None =>
        var info := ModInfo(Instance(b.name, InstanceName(b)), b);
        var withInstance := t.(instances := t.instances[InstanceName(b) := info]);
        var (t', clash) := RegisterAliases(withInstance, InstanceName(b), Aliases(b));
        if clash.Some? then Abort(t', DuplicateName(b, clash.value)) else NewModule(t', info)
  }

  /** The rest of the pass from a table and the lists collected so far: the final table and result. */
  function BuildFrom(t: NameTable, nodes: seq<Node>, endpoints: seq<ModInfo>, mods: seq<ModInfo>,
                     ef: map<string, EndpointFactory>, mf: map<string, ModuleFactory>): (NameTable, BuildResult)
    decreases |nodes|
  {
    if nodes == [] then
      (t, if endpoints == [] then BuildFailed(NoEndpoint) else Built(endpoints, mods))
    else
      match RegisterBlock(t, nodes[0], ef, mf)
      case NewEndpoint(info) => BuildFrom(t, nodes[1..], endpoints + [info], mods, ef, mf)
      case NewModule(t', info) => BuildFrom(t', nodes[1..], endpoints, mods + [info], ef, mf)
      case Abort(t', err) => (t', BuildFailed(err))
  }

  /** The whole pass. */
  function Build(t: NameTable, nodes: seq<Node>, ef: map<string, EndpointFactory>, mf: map<string, ModuleFactory>): (NameTable, BuildResult) {
    BuildFrom(t, nodes, [], [], ef, mf)
  }

  /**
   * `RegisterModules`. The registry's name tables end as the pass specifies,
   * also on failure: an alias clash leaves the instance and the aliases
   * before the clash registered.
   */
  method RegisterModules(reg: Registry, nodes: seq<Node>) returns (r: BuildResult)
    modifies reg`instances, reg`aliases
    ensures (reg.Table(), r) == Build(old(reg.Table()), nodes, reg.endpointFactories, reg.moduleFactories)
  {
    ghost var spec := Build(reg.Table(), nodes, reg.endpointFactories, reg.moduleFactories);
    var endpoints: seq<ModInfo> := [];
    var mods: seq<ModInfo> := [];
    var i := 0;
    while i < |nodes|
      invariant 0 <= i <= |nodes|
      invariant spec == BuildFrom(reg.Table(), nodes[i..], endpoints, mods, reg.endpointFactories, reg.moduleFactories)
    {
      var block := nodes[i];
      assert nodes[i..][0] == block && nodes[i..][1..] == nodes[i + 1..];
      ghost var step := RegisterBlock(reg.Table(), block, reg.endpointFactories, reg.moduleFactories);

      var instName: string;
      var modAliases: seq<string>;
      if |block.args| == 0 {
        instName, modAliases := block.name, [];
      } else {
        instName, modAliases := block.args[0], block.args[1..];
      }
      var modName := block.name;

      var endpFactory := reg.GetEndpoint(modName);
      if endpFactory.Some? {
        var inst := endpFactory.value(modName, block.args);
        if inst.Err? {
          return BuildFailed(FactoryFailed(inst.error));
        }
        endpoints := endpoints + [ModInfo(inst.value, block)];
        i := i + 1;
        continue;
      }

      var factory := reg.Get(modName);
      if factory.None? {
        return BuildFailed(UnknownModule(block, modName));
      }
      if reg.HasInstance(instName) {
        return BuildFailed(DuplicateName(block, instName));
      }
      var failure := factory.value(modName, instName, modAliases);
      if failure.Some? {
        return BuildFailed(FactoryFailed(failure.value));
      }

      var info := ModInfo(Instance(modName, instName), block);
      reg.RegisterInstance(info);
      ghost var aliasSpec := RegisterAliases(reg.Table(), instName, modAliases);
      var j := 0;
      while j < |modAliases|
        invariant 0 <= j <= |modAliases|
        invariant aliasSpec == RegisterAliases(reg.Table(), instName, modAliases[j..])
      {
        assert modAliases[j..][0] == modAliases[j] && modAliases[j..][1..] == modAliases[j + 1..];
        if reg.HasInstance(modAliases[j]) {
          return BuildFailed(DuplicateName(block, modAliases[j]));
        }
        reg.RegisterAlias(modAliases[j], instName);
        j := j + 1;
      }
      assert modAliases[j..] == [];

      mods := mods + [info];
      i := i + 1;
    }

    if |endpoints| == 0 {
      return BuildFailed(NoEndpoint);
    }
    return Built(endpoints, mods);
  }
}
