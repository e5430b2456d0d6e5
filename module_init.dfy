/**
 * The second pass over the module graph (`initModules` in mailchat.go and
 * mailcoin.go): initialise every endpoint in order, register a shutdown hook
 * for each initialised endpoint that can be closed, then insist that every
 * plain module was initialised by some consumer.
 */
module ModuleInit {
  import opened Wrappers
  import opened ModuleRegistry
  import opened Hooks

  /**
   * What an endpoint's `Init` does, as an oracle: the instances it marks as
   * initialised (the modules it resolved and initialised on the way) and
   * the error it returns, if any.
   */
  datatype InitOutcome = InitOutcome(marked: set<string>, failure: Option<string>)

  datatype InitError =
    | EndpointInitFailed(reason: string)                                     // the endpoint's own error, passed on
    | UnusedBlock(file: string, line: int, instName: string, modName: string) // "Unused configuration block at ..."

  function UnusedError(m: ModInfo): InitError {
    UnusedBlock(m.cfg.file, m.cfg.line, m.instance.instName, m.instance.modName)
  }

  /** The state after the endpoint loop: initialised names, endpoints to close at shutdown, and the error, if any. */
  datatype EndpointsDone = EndpointsDone(initialized: set<string>, closers: seq<Instance>, failure: Option<string>)

  /** The endpoint loop from the state reached so far. */
  function InitEndpoints(initialized: set<string>, endpoints: seq<ModInfo>, closers: seq<Instance>,
                         init: Instance -> InitOutcome, isCloser: Instance -> bool): (r: EndpointsDone)
    ensures initialized <= r.initialized
    ensures |closers| <= |r.closers| && r.closers[..|closers|] == closers
    decreases |endpoints|
  {
    if endpoints == [] then EndpointsDone(initialized, closers, None)
    else
      var inst := endpoints[0].instance;
      var o := init(inst);
      if o.failure.Some? then EndpointsDone(initialized + o.marked, closers, o.failure)
      else InitEndpoints(initialized + o.marked, endpoints[1..],
                         closers + (if isCloser(inst) then [inst] else []), init, isCloser)
  }

  /** The position of the first plain module that is not initialised, if there is one. */
  function FirstUnused(mods: seq<ModInfo>, initialized: set<string>): (r: Option<nat>)
    ensures r.None? <==> forall k :: 0 <= k < |mods| ==> mods[k].instance.instName in initialized
    ensures r.Some? ==>
      && r.value < |mods|
      && mods[r.value].instance.instName !in initialized
      && forall k :: 0 <= k < r.value ==> mods[k].instance.instName in initialized
    decreases |mods|
  {
    if mods == [] then None
    else if mods[0].instance.instName in initialized then
      match FirstUnused(mods[1..], initialized)
      case None => None
      case Some(k) => Some(k + 1)
    else Some(0)
  }

  /** The error `initModules` returns. */
  function InitResult(done: EndpointsDone, mods: seq<ModInfo>): Option<InitError> {
    if done.failure.Some? then Some(EndpointInitFailed(done.failure.value))
    else match FirstUnused(mods, done.initialized)
      case None => None
      case Some(k) => Some(UnusedError(mods[k]))
  }

  function ShutdownHooks(closers: seq<Instance>): seq<(Event, Hook)> {
    if closers == [] then [] else [(Shutdown, CloseInstance(closers[0]))] + ShutdownHooks(closers[1..])
  }

  lemma {:induction false} ShutdownHooksAppend(closers: seq<Instance>, inst: Instance)
    ensures ShutdownHooks(closers + [inst]) == ShutdownHooks(closers) + [(Shutdown, CloseInstance(inst))]
  {
    if closers != [] {
      assert (closers + [inst])[1..] == closers[1..] + [inst];
      ShutdownHooksAppend(closers[1..], inst);
    }
  }

  /**
   * `initModules`. `init` stands for each endpoint's `Init` and `isCloser`
   * for the `io.Closer` capability check.
   */
  method InitModules(reg: Registry, hooks: HookList, endpoints: seq<ModInfo>, mods: seq<ModInfo>,
                     init: Instance -> InitOutcome, isCloser: Instance -> bool) returns (err: Option<InitError>)
    modifies reg`initialized, hooks
    ensures var done := InitEndpoints(old(reg.initialized), endpoints, [], init, isCloser);
      && reg.initialized == done.initialized
      && hooks.registered == old(hooks.registered) + ShutdownHooks(done.closers)
      && err == InitResult(done, mods)
  {
    ghost var done := InitEndpoints(reg.initialized, endpoints, [], init, isCloser);
    ghost var closers: seq<Instance> := [];
    var i := 0;
    while i < |endpoints|
      invariant 0 <= i <= |endpoints|
      invariant done == InitEndpoints(reg.initialized, endpoints[i..], closers, init, isCloser)
      invariant hooks.registered == old(hooks.registered) + ShutdownHooks(closers)
    {
      var endp := endpoints[i];
      assert endpoints[i..][0] == endp && endpoints[i..][1..] == endpoints[i + 1..];
      var outcome := init(endp.instance);
      reg.MarkInitialized(outcome.marked);
      if outcome.failure.Some? {
        return Some(EndpointInitFailed(outcome.failure.value));
      }
      if isCloser(endp.instance) {
        hooks.AddHook(Shutdown, CloseInstance(endp.instance));
        ShutdownHooksAppend(closers, endp.instance);
        closers := closers + [endp.instance];
      } else {
        assert closers + [] == closers;
      }
      i := i + 1;
    }
    assert endpoints[i..] == [];

    var j := 0;
    while j < |mods|
      invariant 0 <= j <= |mods|
      invariant forall k :: 0 <= k < j ==> mods[k].instance.instName in reg.initialized
    {
      if mods[j].instance.instName !in reg.initialized {
        return Some(UnusedError(mods[j]));
      }
      j := j + 1;
    }
    return None;
  }

  /** How many endpoints, from the first, initialise without error. */
  function InitPrefix(endpoints: seq<ModInfo>, init: Instance -> InitOutcome): (k: nat)
    ensures k <= |endpoints|
    ensures forall j :: 0 <= j < k ==> init(endpoints[j].instance).failure.None?
    ensures k < |endpoints| ==> init(endpoints[k].instance).failure.Some?
    decreases |endpoints|
  {
    if endpoints == [] || init(endpoints[0].instance).failure.Some? then 0
    else 1 + InitPrefix(endpoints[1..], init)
  }

  /** The closable instances among the given endpoints, in order. */
  function Closers(endpoints: seq<ModInfo>, isCloser: Instance -> bool): seq<Instance> {
    if endpoints == [] then []
    else (if isCloser(endpoints[0].instance) then [endpoints[0].instance] else []) + Closers(endpoints[1..], isCloser)
  }

  /** Everything the given endpoints' Init calls mark. */
  function Marked(endpoints: seq<ModInfo>, init: Instance -> InitOutcome): set<string> {
    if endpoints == [] then {} else init(endpoints[0].instance).marked + Marked(endpoints[1..], init)
  }

  /**
   * Endpoints are initialised in order up to the first failure, whose error
   * is returned; no later endpoint is initialised; a shutdown hook is
   * registered for each closable endpoint that initialised, in order.
   */
  lemma {:induction false} EndpointsInitInOrder(initialized: set<string>, endpoints: seq<ModInfo>, closers: seq<Instance>,
                                                init: Instance -> InitOutcome, isCloser: Instance -> bool)
    ensures var done := InitEndpoints(initialized, endpoints, closers, init, isCloser);
      var k := InitPrefix(endpoints, init);
      && (done.failure.None? <==> k == |endpoints|)
      && (k < |endpoints| ==> done.failure == init(endpoints[k].instance).failure)
      && done.closers == closers + Closers(endpoints[..k], isCloser)
      && done.initialized == initialized + Marked(endpoints[..if k < |endpoints| then k + 1 else k], init)
    decreases |endpoints|
  {
    if endpoints != [] {
      var e := endpoints[0];
      var o := init(e.instance);
      if o.failure.Some? {
        assert endpoints[..1] == [e] && endpoints[..1][1..] == [];
      } else {
        var more := if isCloser(e.instance) then [e.instance] else [];
        EndpointsInitInOrder(initialized + o.marked, endpoints[1..], closers + more, init, isCloser);
        var k := InitPrefix(endpoints, init);
        var k' := InitPrefix(endpoints[1..], init);
        assert k == k' + 1;
        assert endpoints[..k][0] == e && endpoints[..k][1..] == endpoints[1..][..k'];
        var n := if k < |endpoints| then k + 1 else k;
        assert endpoints[..n][0] == e && endpoints[..n][1..] == endpoints[1..][..n - 1];
      }
    } else {
      assert endpoints[..0] == [];
    }
  }

  /**
   * `initModules` succeeds exactly when every endpoint initialises and every
   * plain module ends up initialised; then every closable endpoint has its
   * shutdown hook.
   */
  lemma InitSucceedsIff(initialized: set<string>, endpoints: seq<ModInfo>, mods: seq<ModInfo>,
                        init: Instance -> InitOutcome, isCloser: Instance -> bool)
    ensures var done := InitEndpoints(initialized, endpoints, [], init, isCloser);
      InitResult(done, mods).None? <==>
        && (forall j :: 0 <= j < |endpoints| ==> init(endpoints[j].instance).failure.None?)
        && (forall k :: 0 <= k < |mods| ==> mods[k].instance.instName in done.initialized)
    ensures var done := InitEndpoints(initialized, endpoints, [], init, isCloser);
      InitResult(done, mods).None? ==> done.closers == Closers(endpoints, isCloser)
  {
    EndpointsInitInOrder(initialized, endpoints, [], init, isCloser);
    assert endpoints[..|endpoints|] == endpoints;
  }

  /** An unused plain module is reported by its block's file and line, and it is the first such module in order. */
  lemma UnusedReportedFirst(initialized: set<string>, endpoints: seq<ModInfo>, mods: seq<ModInfo>,
                            init: Instance -> InitOutcome, isCloser: Instance -> bool)
    requires InitResult(InitEndpoints(initialized, endpoints, [], init, isCloser), mods).Some?
    requires InitResult(InitEndpoints(initialized, endpoints, [], init, isCloser), mods).value.UnusedBlock?
    ensures var done := InitEndpoints(initialized, endpoints, [], init, isCloser);
      exists k :: 0 <= k < |mods|
        && InitResult(done, mods) == Some(UnusedBlock(mods[k].cfg.file, mods[k].cfg.line, mods[k].instance.instName, mods[k].instance.modName))
        && mods[k].instance.instName !in done.initialized
        && (forall j :: 0 <= j < k ==> mods[j].instance.instName in done.initialized)
  {
    var done := InitEndpoints(initialized, endpoints, [], init, isCloser);
    var k := FirstUnused(mods, done.initialized).value;
    assert InitResult(done, mods) == Some(UnusedError(mods[k]));
  }
}
