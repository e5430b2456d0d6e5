/**
 * The `hash` subcommand (internal/cli/ctl/hash.go): choose a hash algorithm,
 * settle its cost options from the command-line flags, obtain the password
 * and print `algorithm:hash`. The hash functions themselves are opaque.
 */
module HashCommand {
  import opened Wrappers
  import Text

  /** golang.org/x/crypto/bcrypt's cost bounds and default. */
  const BcryptMinCost: int := 4
  const BcryptMaxCost: int := 31
  const BcryptDefaultCost: int := 10

  /** The name of pass_table's default algorithm. */
  const DefaultHash: string := "bcrypt"

  /** The option values used when a flag is not set. */
  const Argon2DefaultMemory: nat := 1024
  const Argon2DefaultTime: nat := 2
  const Argon2DefaultThreads: nat := 1

  /** The default the `--argon2-time` flag advertises in its help text. */
  const Argon2TimeFlagDefault: int := 3

  /** `pass_table.HashOpts`; the Argon2 fields are a uint32, a uint32 and a uint8. */
  datatype HashOpts = HashOpts(bcryptCost: int, argon2Memory: nat, argon2Time: nat, argon2Threads: nat)

  /**
   * The flags as the command sees them: the value of `--hash` (its default
   * included) and, for every other flag, its value when it was set.
   */
  datatype Flags = Flags(
    hash: string,
    password: Option<string>,
    bcryptCost: Option<int>,
    argon2Memory: Option<int>,
    argon2Time: Option<int>,
    argon2Threads: Option<int>)

  /** One entry of `pass_table.HashCompute`: options and password to a hash, or an error. */
  type HashFn = (HashOpts, string) -> Result<string, string>

  datatype HashError =
    | UnknownHash(available: seq<string>)
    | CostTooBig
    | CostTooSmall
    | ReadFailed(reason: string)
    | ComputeFailed(reason: string)

  const UnknownHashPrefix: string := "Error: Unknown hash function, available: "

  /**
   * The text of each error: the command's own errors start with "Error: ",
   * and errors from reading or hashing are passed on as they are.
   */
  function Message(e: HashError): (m: string)
    ensures e.UnknownHash? ==> UnknownHashPrefix <= m
    ensures e.UnknownHash? || e.CostTooBig? || e.CostTooSmall? ==> "Error: " <= m
    ensures e.ReadFailed? || e.ComputeFailed? ==> m == e.reason
  {
    match e
    case UnknownHash(available) => UnknownHashPrefix + Text.Join(available, ", ")
    case CostTooBig => "Error: too big bcrypt cost"
    case CostTooSmall => "Error: too small bcrypt cost"
    case ReadFailed(reason) => reason
    case ComputeFailed(reason) => reason
  }

  /** The unknown-hash message names every available algorithm. */
  lemma UnknownHashListsNames(available: seq<string>)
    ensures forall i :: 0 <= i < |available| ==> Text.Occurs(available[i], Message(UnknownHash(available)))
  {
    var joined := Text.Join(available, ", ");
    Text.JoinHasParts(available, ", ");
    forall i | 0 <= i < |available|
      ensures Text.Occurs(available[i], Message(UnknownHash(available)))
    {
      var x := available[i];
      var p :| 0 <= p <= |joined| && Text.OccursAt(x, joined, p);
      var q := |UnknownHashPrefix| + p;
      assert (UnknownHashPrefix + joined)[q..q + |x|] == x;
      assert Text.OccursAt(x, Message(UnknownHash(available)), q);
    }
  }

  const EmptyPasswordWarning: string := "WARNING: This is the hash of an empty string"
  const WhitespaceWarning: string := "WARNING: There is leading/trailing whitespace in the string"

  /** Go's conversions `uint32(x)` and `uint8(x)` of an int: two's complement truncation. */
  function Uint32(x: int): nat {
    x % 0x1_0000_0000
  }

  function Uint8(x: int): nat {
    x % 0x100
  }

  /** The algorithm name: the flag's value, or the default when it is empty. */
  function HashName(flag: string): (name: string)
    ensures name != ""
    ensures flag != "" ==> name == flag
    ensures flag == "" ==> name == DefaultHash
  {
    if flag == "" then DefaultHash else flag
  }

  /** The options the flags select, or the error for a bcrypt cost out of bounds. */
  function ResolveOptions(f: Flags): (r: Result<HashOpts, HashError>)
    ensures r.Err? <==> f.bcryptCost.Some? && !(BcryptMinCost <= f.bcryptCost.value <= BcryptMaxCost)
    ensures r.Ok? ==> BcryptMinCost <= r.value.bcryptCost <= BcryptMaxCost
    ensures r.Ok? ==> r.value.bcryptCost == (if f.bcryptCost.Some? then f.bcryptCost.value else BcryptDefaultCost)
    ensures r.Ok? ==> r.value.argon2Memory < 0x1_0000_0000 && r.value.argon2Time < 0x1_0000_0000 && r.value.argon2Threads < 0x100
  {
    var defaults := HashOpts(BcryptDefaultCost, Argon2DefaultMemory, Argon2DefaultTime, Argon2DefaultThreads);
    if f.bcryptCost.Some? && f.bcryptCost.value > BcryptMaxCost then Err(CostTooBig)
    else if f.bcryptCost.Some? && f.bcryptCost.value < BcryptMinCost then Err(CostTooSmall)
    else
      Ok(HashOpts(
        if f.bcryptCost.Some? then f.bcryptCost.value else defaults.bcryptCost,
        if f.argon2Memory.Some? then Uint32(f.argon2Memory.value) else defaults.argon2Memory,
        if f.argon2Time.Some? then Uint32(f.argon2Time.value) else defaults.argon2Time,
        if f.argon2Threads.Some? then Uint8(f.argon2Threads.value) else defaults.argon2Threads))
  }

  /** The password: the flag's value when set, otherwise what was read from the terminal. */
  function Password(f: Flags, read: Result<string, string>): (r: Result<string, HashError>)
    ensures f.password.Some? ==> r == Ok(f.password.value)
    ensures f.password.None? && read.Ok? ==> r == Ok(read.value)
    ensures f.password.None? && read.Err? ==> r == Err(ReadFailed(read.error))
  {
    if f.password.Some? then Ok(f.password.value)
    else match read
      case Ok(p) => Ok(p)
      case Err(e) => Err(ReadFailed(e))
  }

  /** The warnings printed for a suspicious password. */
  function Warnings(pass: string): (w: seq<string>)
    ensures EmptyPasswordWarning in w <==> pass == ""
    ensures WhitespaceWarning in w <==> Text.TrimSpace(pass) != pass
    ensures forall x :: x in w ==> x == EmptyPasswordWarning || x == WhitespaceWarning
    ensures |w| <= 1
  {
    (if pass == "" then [EmptyPasswordWarning] else [])
    + (if Text.TrimSpace(pass) != pass then [WhitespaceWarning] else [])
  }

  /** The names of the known algorithms, each once, in the map's (unspecified) iteration order. */
  method AvailableHashes(table: map<string, HashFn>) returns (funcs: seq<string>)
    ensures forall k :: k in funcs <==> k in table
    ensures Text.Distinct(funcs)
  {
    funcs := [];
    var rest := table.Keys;
    while rest != {}
      invariant rest <= table.Keys
      invariant forall k :: k in funcs <==> k in table && k !in rest
      invariant Text.Distinct(funcs)
      decreases |rest|
    {
      var k :| k in rest;
      funcs := funcs + [k];
      rest := rest - {k};
    }
  }

  /**
   * `hashCommand`. `table` is `pass_table.HashCompute` and `read` the
   * outcome of reading the password from the terminal (used only when the
   * `--password` flag is not set). `warnings` are the lines written to
   * standard error; `r` is the line written to standard output, or the
   * error returned.
   */
  method Run(flags: Flags, table: map<string, HashFn>, read: Result<string, string>)
    returns (warnings: seq<string>, r: Result<string, HashError>)
    ensures HashName(flags.hash) !in table ==>
      warnings == [] && r.Err? && r.error.UnknownHash? && Text.Distinct(r.error.available)
      && (forall k :: k in r.error.available <==> k in table)
    ensures HashName(flags.hash) in table && ResolveOptions(flags).Err? ==>
      warnings == [] && r == Err(ResolveOptions(flags).error)
    ensures HashName(flags.hash) in table && ResolveOptions(flags).Ok? && Password(flags, read).Err? ==>
      warnings == [] && r == Err(Password(flags, read).error)
    ensures HashName(flags.hash) in table && ResolveOptions(flags).Ok? && Password(flags, read).Ok? ==>
      var name, pass := HashName(flags.hash), Password(flags, read).value;
      && warnings == Warnings(pass)
      && match table[name](ResolveOptions(flags).value, pass)
         case Ok(hash) => r == Ok(name + ":" + hash)
         case Err(e) => r == Err(ComputeFailed(e))
  {
    var hashFunc := flags.hash;
    if hashFunc == "" {
      hashFunc := DefaultHash;
    }
    if hashFunc !in table {
      var funcs := AvailableHashes(table);
      return [], Err(UnknownHash(funcs));
    }
    var hashCompute := table[hashFunc];

    var opts := HashOpts(BcryptDefaultCost, Argon2DefaultMemory, Argon2DefaultTime, Argon2DefaultThreads);
    if flags.bcryptCost.Some? {
      if flags.bcryptCost.value > BcryptMaxCost {
        return [], Err(CostTooBig);
      }
      if flags.bcryptCost.value < BcryptMinCost {
        return [], Err(CostTooSmall);
      }
      opts := opts.(bcryptCost := flags.bcryptCost.value);
    }
    if flags.argon2Memory.Some? {
      opts := opts.(argon2Memory := Uint32(flags.argon2Memory.value));
    }
    if flags.argon2Time.Some? {
      opts := opts.(argon2Time := Uint32(flags.argon2Time.value));
    }
    if flags.argon2Threads.Some? {
      opts := opts.(argon2Threads := Uint8(flags.argon2Threads.value));
    }

    var pass: string;
    if flags.password.Some? {
      pass := flags.password.value;
    } else {
      match read
      case Ok(p) =>
        pass := p;
      case Err(e) =>
        return [], Err(ReadFailed(e));
    }

    warnings := [];
    if pass == "" {
      warnings := warnings + [EmptyPasswordWarning];
    }
    if Text.TrimSpace(pass) != pass {
      warnings := warnings + [WhitespaceWarning];
    }
    assert opts == ResolveOptions(flags).value;
    assert pass == Password(flags, read).value;
    assert warnings == Warnings(pass);

    match hashCompute(opts, pass)
    case Ok(hash) =>
      r := Ok(hashFunc + ":" + hash);
    case Err(e) =>
      r := Err(ComputeFailed(e));
  }

  /** With no option flag set: bcrypt cost 10, Argon2 memory 1024 KiB, time 2 (not the advertised 3), one thread. */
  lemma DefaultOptions(f: Flags)
    requires f.bcryptCost.None? && f.argon2Memory.None? && f.argon2Time.None? && f.argon2Threads.None?
    ensures ResolveOptions(f) == Ok(HashOpts(10, 1024, 2, 1))
    ensures ResolveOptions(f).value.argon2Time != Argon2TimeFlagDefault
  {
  }

  /** A set bcrypt cost is accepted exactly within [MinCost, MaxCost], and then used as given. */
  lemma BcryptCostBounds(f: Flags)
    requires f.bcryptCost.Some?
    ensures ResolveOptions(f).Ok? <==> BcryptMinCost <= f.bcryptCost.value <= BcryptMaxCost
    ensures f.bcryptCost.value > BcryptMaxCost ==> ResolveOptions(f) == Err(CostTooBig)
    ensures f.bcryptCost.value < BcryptMinCost ==> ResolveOptions(f) == Err(CostTooSmall)
    ensures ResolveOptions(f).Ok? ==> ResolveOptions(f).value.bcryptCost == f.bcryptCost.value
  {
  }

  /** Each Argon2 option moves off its default only when its own flag is set. */
  lemma Argon2OptionsIndependent(f: Flags)
    requires ResolveOptions(f).Ok?
    ensures var o := ResolveOptions(f).value;
      && o.argon2Memory == (if f.argon2Memory.Some? then Uint32(f.argon2Memory.value) else Argon2DefaultMemory)
      && o.argon2Time == (if f.argon2Time.Some? then Uint32(f.argon2Time.value) else Argon2DefaultTime)
      && o.argon2Threads == (if f.argon2Threads.Some? then Uint8(f.argon2Threads.value) else Argon2DefaultThreads)
      && o.argon2Memory < 0x1_0000_0000 && o.argon2Time < 0x1_0000_0000 && o.argon2Threads < 0x100
  {
  }
}
