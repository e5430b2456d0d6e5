/**
 * The process-wide module registry the graph builder talks to: the factories
 * registered per module type (endpoints in a namespace of their own), the
 * table of instance names and aliases, and the set of instances that have
 * been initialised.
 */
module ModuleRegistry {
  import opened Wrappers

  /** A parsed top-level configuration block (`config.Node`); its nested directives are not modelled. */
  datatype Node = Node(name: string, args: seq<string>, file: string, line: int)

  /** A module instance, identified by its type name and its instance name. */
  datatype Instance = Instance(modName: string, instName: string)

  /** `ModInfo`: an instance together with the block that configured it. */
  datatype ModInfo = ModInfo(instance: Instance, cfg: Node)

  /** An endpoint factory: module type and raw block arguments to an instance, or an error. */
  type EndpointFactory = (string, seq<string>) -> Result<Instance, string>

  /**
   * A plain-module factory: module type, instance name and aliases to an
   * error, if it fails. The instance it builds carries the type and
   * instance name it was given.
   */
  type ModuleFactory = (string, string, seq<string>) -> Option<string>

  /** The registry's name tables as a value: canonical instances and alias to canonical name. */
  datatype NameTable = NameTable(instances: map<string, ModInfo>, aliases: map<string, string>) {

    /** `HasInstance`: the name is taken, as a canonical name or as an alias. */
    predicate Has(name: string) {
      name in instances || name in aliases
    }

    /** Every name taken. */
    function Taken(): set<string> {
      instances.Keys + aliases.Keys
    }
  }

  class Registry {
    var endpointFactories: map<string, EndpointFactory>
    var moduleFactories: map<string, ModuleFactory>
    var instances: map<string, ModInfo>
    var aliases: map<string, string>
    var initialized: set<string>

    /** The registry as it stands before any configuration is read: factories registered, no instances. */
    constructor (endpointFactories: map<string, EndpointFactory>, moduleFactories: map<string, ModuleFactory>)
      ensures this.endpointFactories == endpointFactories && this.moduleFactories == moduleFactories
      ensures instances == map[] && aliases == map[] && initialized == {}
    {
      this.endpointFactories := endpointFactories;
      this.moduleFactories := moduleFactories;
      instances := map[];
      aliases := map[];
      initialized := {};
    }

    function Table(): NameTable
      reads this
    {
      NameTable(instances, aliases)
    }

    /** `module.GetEndpoint`. */
    function GetEndpoint(modName: string): (f: Option<EndpointFactory>)
      reads this
      ensures f.Some? <==> modName in endpointFactories
      ensures f.Some? ==> f.value == endpointFactories[modName]
    {
      if modName in endpointFactories then Some(endpointFactories[modName]) else None
    }

    /** `module.Get`. */
    function Get(modName: string): (f: Option<ModuleFactory>)
      reads this
      ensures f.Some? <==> modName in moduleFactories
      ensures f.Some? ==> f.value == moduleFactories[modName]
    {
      if modName in moduleFactories then Some(moduleFactories[modName]) else None
    }

    /** `module.HasInstance`. */
    function HasInstance(name: string): (b: bool)
      reads this
      ensures b <==> name in Table().Taken()
    {
      Table().Has(name)
    }

    /** `module.RegisterInstance`: records the instance under its instance name. */
    method RegisterInstance(info: ModInfo)
      modifies this`instances
      ensures instances == old(instances)[info.instance.instName := info]
    {
      instances := instances[info.instance.instName := info];
    }

    /** `module.RegisterAlias`. */
    method RegisterAlias(alias: string, instName: string)
      modifies this`aliases
      ensures aliases == old(aliases)[alias := instName]
    {
      aliases := aliases[alias := instName];
    }

    /** What an `Init` call does to `module.Initialized`: marks the instances it initialised. */
    method MarkInitialized(names: set<string>)
      modifies this`initialized
      ensures initialized == old(initialized) + names
    {
      initialized := initialized + names;
    }
  }
}
