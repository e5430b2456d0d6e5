/**
 * The adapter that gives cobra commands the argument accessors of the older
 * CLI library (internal/cli/cobra_adapter.go). Flag getters are left out;
 * only the positional arguments and the exit error are modelled.
 */
module CobraAdapter {

  /** `CobraArgs`: read-only access to the positional arguments. */
  datatype CobraArgs = CobraArgs(args: seq<string>) {

    /** The first argument, or "" when there is none. */
    function First(): (r: string)
      ensures |args| > 0 ==> r == args[0]
      ensures |args| == 0 ==> r == ""
    {
      if |args| > 0 then args[0] else ""
    }

    /** The n-th argument, or "" past the end. A negative n is an index panic in the source. */
    function Get(n: int): (r: string)
      requires 0 <= n
      ensures n < |args| ==> r == args[n]
      ensures n >= |args| ==> r == ""
    {
      if n < |args| then args[n] else ""
    }

    function Len(): (r: nat)
      ensures r == |args|
    {
      |args|
    }
  }

  /** `CobraContext`: the command's positional arguments (the command itself is left out). */
  datatype CobraContext = CobraContext(args: seq<string>) {

    function Args(): (a: CobraArgs)
      ensures a.args == args
    {
      CobraArgs(args)
    }

    function NArg(): (r: nat)
      ensures r == |args|
    {
      |args|
    }
  }

  /** `ExitError`: an error carrying a message and a process exit code. */
  datatype ExitError = ExitError(message: string, code: int) {

    function Error(): (r: string)
      ensures r == message
    {
      message
    }
  }

  /** `Exit(message, code)`; echoing the message to standard error is left out. */
  function Exit(message: string, code: int): (e: ExitError)
    ensures e.Error() == message && e.code == code
  {
    ExitError(message, code)
  }

  /** First is Get(0), for every argument list. */
  lemma FirstIsGetZero(a: CobraArgs)
    ensures a.First() == a.Get(0)
  {
  }

  /** The context and its argument view agree on the count. */
  lemma NArgIsLen(c: CobraContext)
    ensures c.NArg() == c.Args().Len()
  {
  }
}
