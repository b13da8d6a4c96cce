/** The registration half of the runtime, as the object whose slices it appends to. */
module LifecycleRuntime {
  import opened Lifecycle

  ghost predicate DistinctNames(names: seq<string>) {
    && (forall i :: 0 <= i < |names| ==> names[i] != "")
    && (forall i, j :: 0 <= i < j < |names| ==> names[i] != names[j])
  }

  class Runtime {
    var components: seq<string>
    var cleanups: seq<string>
    var running: bool
    var stopped: bool
    var stopUnsafe: bool
    var isClosed: bool

    function View(): Registry
      reads this
    {
      Registry(components, cleanups, running, stopped, stopUnsafe, isClosed)
    }

    ghost predicate Valid()
      reads this
    {
      DistinctNames(components) && DistinctNames(cleanups)
    }

    constructor ()
      ensures Valid() && View() == INITIAL.reg
    {
      components, cleanups := [], [];
      running, stopped, stopUnsafe, isClosed := false, false, false, false;
    }

    method Known(names: seq<string>, name: string) returns (known: bool)
      ensures known <==> name in names
    {
      for i := 0 to |names|
        invariant name !in names[..i]
      {
        if names[i] == name {
          return true;
        }
      }
      return false;
    }

    method RegisterComponent(name: string) returns (ok: bool)
      requires Valid()
      modifies this
      ensures Valid() && View() == AddComponent(old(View()), name)
      ensures ok <==> components == old(components) + [name]
    {
      if name == "" || running || isClosed {
        return false;
      }
      var known := Known(components, name);
      if known {
        return false;
      }
      components := components + [name];
      return true;
    }

    method RegisterCleanup(name: string) returns (ok: bool)
      requires Valid()
      modifies this
      ensures Valid() && View() == AddCleanup(old(View()), name)
      ensures ok <==> cleanups == old(cleanups) + [name]
    {
      if name == "" || running || isClosed {
        return false;
      }
      var known := Known(cleanups, name);
      if known {
        return false;
      }
      cleanups := cleanups + [name];
      return true;
    }
  }
}
