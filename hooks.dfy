/** The lifecycle hook list: callbacks appended per event and run in registration order. */
module Hooks {
  import opened ModuleRegistry

  datatype Event = Ready | LogRotate | Shutdown

  /** The callbacks the graph builder registers: closing an instance at shutdown. */
  datatype Hook = CloseInstance(inst: Instance)

  class HookList {
    var registered: seq<(Event, Hook)>

    constructor ()
      ensures registered == []
    {
      registered := [];
    }

    /** `hooks.AddHook`: appends, never replaces. */
    method AddHook(event: Event, hook: Hook)
      modifies this
      ensures registered == old(registered) + [(event, hook)]
    {
      registered := registered + [(event, hook)];
    }
  }
}
