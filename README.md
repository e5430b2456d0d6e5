# MailChat module graph and command-line helpers, modelled in Dafny

This project models the start-up core of the MailChat/MailCoin mail server and a few command-line helpers around it.

- **The module graph builder** is `RegisterModules` and `initModules` in `mailchat.go`. `mailcoin.go` holds a line-for-line copy at lines 354-440 (every mailcoin line number is the mailchat one minus two), so one model covers both.
  - The builder walks the top-level configuration blocks in file order. For each block it derives an instance name and aliases, then builds an endpoint or a plain module through the factory registered for the block's type.
  - It records each plain module's names in the process-wide registry. It rejects unknown types and name clashes, and it demands at least one endpoint.
  - A second pass initialises the endpoints in order and registers a shutdown hook for each endpoint that can be closed. It then fails if some plain module was never initialised by a consumer.
- **The `modify.blockchain_tx` modifier** (`internal/modify/blockchain_tx.go`) leaves sender and recipients alone. It submits the raw transaction from an `X-Blockchain-Tx` header when an `X-Blockchain-Type` header names the configured chain.
- **The `hash` subcommand** (`internal/cli/ctl/hash.go`) resolves the algorithm and the bcrypt/Argon2 options from its flags and prints `algorithm:hash`.
- **The cobra argument adapter** (`internal/cli/cobra_adapter.go`) and **the yes/no prompt** (`internal/cli/prompt.go`).

## How the model is organised

- `module_registry.dfy` (module `ModuleRegistry`): the registry as a class `Registry`. Its fields are:
  - endpoint and plain-module factories, in two separate maps;
  - canonical instances;
  - aliases;
  - the `Initialized` set.

  `HasInstance` answers for canonical names and aliases alike. The builder relies on this when it checks aliases (mailchat.go:398). The registry's own package is not part of this model, so its methods are modelled only as far as these calls need.
- `hooks.dfy` (module `Hooks`): the hook list that `initModules` appends shutdown hooks to.
- `module_graph.dfy` (module `ModuleGraph`):
  - The builder pass is written as functions on a value copy of the registry's name tables: `RegisterAliases`, `RegisterBlock`, `BuildFrom` and `Build`.
  - The imperative `RegisterModules` method mutates a `Registry`. Its loop invariants prove that it ends in exactly the state and result that `Build` gives, on every failure path as well.
- `module_graph_properties.dfy` (module `ModuleGraphProperties`): what the pass guarantees (file order, name uniqueness, and where each failure happens).
- `module_init.dfy` (module `ModuleInit`): `initModules` as the method `InitModules`, proved against `InitEndpoints`/`FirstUnused`, plus the lemmas about them.
- `blockchain_tx.dfy`, `hash_command.dfy`, `cobra_adapter.dfy`, `prompt.dfy`: the smaller cores.
- `text.dfy` (module `Text`): the parts of Go's `strings`/`unicode` used by those cores. `wrappers.dfy` holds `Option` and `Result`.

Factories, an endpoint's `Init`, the `io.Closer` check, a chain's `SendRawTx` and the hash functions are all modelled as oracles (function values). The factories, `Init`, `SendRawTx` and the hash functions may fail; the `io.Closer` check is a predicate.

### Order of the name checks

- The builder checks a plain module's instance name *before* it calls the factory (mailchat.go:387-391). It checks the aliases only *after* `RegisterInstance` (mailchat.go:396-402). So an alias clash leaves the instance registered. See `DuplicateCheckedBeforeFactory`, `AliasClashKeepsInstance` and `SelfAliasFails`.
- Endpoint blocks skip every name check and are never entered in the registry (mailchat.go:371-379). Two endpoint blocks may share a name. See `EndpointIgnoresRegistry` and `RepeatedEndpointAccepted`. Only plain-module names are unique (`BuiltNamesUnique`, `DuplicateNamesFail`).

## Model

| member | source | states |
|---|---|---|
| `ModuleGraph.RegisterModules` | mailchat.go:356-413 | The registry's instance and alias tables, and the result, are exactly what the pass `Build` gives from the old tables. This holds on success and on every error path, including the partial registration left by an alias clash. |
| `ModuleGraph.RegisterAliases` | mailchat.go:397-402 | The alias loop never touches the instance table. When it stops at a clash, the clash is one of the block's aliases and is taken in the table it stops with. `AliasesRegistered` and `AliasClash` state the rest. |
| `ModuleGraph.RegisterBlock` | mailchat.go:359-405 | One block: it yields an endpoint exactly when the type has an endpoint factory and that factory succeeds, and the entry is the instance that factory returned. A plain module is entered as (type, instance name, block), and only when its instance name was free and its factory reported no error. A failed block leaves the table changed only when the failure is a clash on one of its aliases. `ModuleStep` and the lemmas after it state the rest. |
| `ModuleGraphProperties.BlockNaming` | mailchat.go:360-367 | A block without arguments has its block name as instance name and no aliases. Otherwise the instance name is `Args[0]`, the aliases are `Args[1:]`, and the block's names are exactly its arguments. |
| `ModuleGraphProperties.EndpointIgnoresRegistry` | mailchat.go:371-379 | For a type with an endpoint factory, that factory is given the raw arguments. The outcome does not depend on the registry, and the registry is left unchanged. A factory error ends the build with that error. |
| `ModuleGraphProperties.RepeatedEndpointAccepted` | mailchat.go:371-379 | The same endpoint block twice builds successfully, giving two endpoints and an untouched registry. Endpoint names are never checked. |
| `ModuleGraphProperties.FactoryErrorAborts` | mailchat.go:371-394 | An endpoint factory's error, or a plain-module factory's error for a block whose instance name is free, ends the build with exactly that error and the registry unchanged. |
| `ModuleGraphProperties.UnknownModuleFails` | mailchat.go:382-385 | A block whose type has neither an endpoint nor a module factory ends the build with "unknown module" for that block. |
| `ModuleGraphProperties.DuplicateCheckedBeforeFactory` | mailchat.go:387-394 | A taken instance name ends the build with a duplicate-name error, and the registry is unchanged. Replacing the factory changes nothing, so the factory is never consulted. |
| `ModuleGraphProperties.AliasesRegistered` | mailchat.go:397-402 | When the alias loop completes, the aliases are pairwise distinct and were all free. Each now maps to the instance name, the old alias entries are kept, no other alias is added, and the instance table is untouched. |
| `ModuleGraphProperties.AliasClash` | mailchat.go:397-402 | The loop stops at the *first* alias that is taken when its turn comes. The aliases before it go through without a clash and leave exactly the table the loop stops with: they are distinct, were free, and are registered as aliases of the instance name. The old entries are kept and the instance table is untouched. |
| `ModuleGraphProperties.AliasClashKeepsInstance` | mailchat.go:387-402 | A plain-module block that passes the instance-name check and its factory, but then fails, fails on a duplicate alias: the first of its aliases that is taken when its turn comes. The registry then still holds the block's instance, and the aliases before the clashing one stay registered to the instance name. |
| `ModuleGraphProperties.SelfAliasFails` | mailchat.go:396-402 | An alias equal to the block's own instance name (`type name name`) fails the build and leaves `name` registered. |
| `ModuleGraphProperties.ModuleStep` | mailchat.go:382-405 | A plain-module block that goes through yields the entry (type, instance name, block). Its names are distinct and were free. The instance name now maps to that entry and each alias to the instance name; the old entries are kept and nothing else is added. |
| `ModuleGraphProperties.BuildShape` | mailchat.go:359-406 | From any point of the loop, a successful pass means every remaining non-endpoint block's module factory reported no error. It appends those blocks to `mods`, in file order, and ends with at least one endpoint. |
| `ModuleGraphProperties.BuildEndpoints` | mailchat.go:371-379 | From any point of the loop, on a successful pass every remaining endpoint block's factory succeeded. The instances those factories returned, each with its block, are appended to `endpoints` in file order. |
| `ModuleGraphProperties.BuildNames` | mailchat.go:387-405 | From any point of the loop, a successful pass claims distinct, previously free names for the remaining plain-module blocks and adds exactly those to the registry. |
| `ModuleGraphProperties.BuildKeepsEntries` | mailchat.go:387-402 | From any point of the loop, a successful pass keeps every instance and alias entry the registry already had. |
| `ModuleGraphProperties.BuildInstances` | mailchat.go:391-396 | From any point of the loop, after a successful pass each remaining plain-module block's instance name maps to its entry. The instance table gained exactly those names. |
| `ModuleGraphProperties.BuildAliases` | mailchat.go:397-402 | From any point of the loop, after a successful pass each alias of each remaining plain-module block maps to that block's instance name. The alias table gained exactly those aliases. |
| `ModuleGraphProperties.BuiltInFileOrder` | mailchat.go:356-412 | On success, every plain-module factory reported no error, and `mods` is exactly the non-endpoint blocks in input order. Every endpoint factory succeeded, and the endpoints are exactly the instances they returned, in input order. There is at least one endpoint. |
| `ModuleGraphProperties.BuiltNamesUnique` | mailchat.go:387-405 | On success, all instance names and aliases of the plain modules are pairwise distinct and none was registered before. The registry gains exactly these names. |
| `ModuleGraphProperties.BuiltTables` | mailchat.go:387-405 | On success the registry keeps its old entries. Each plain module's instance name maps to its entry and each of its aliases to its instance name. No other name is added to either table. |
| `ModuleGraphProperties.DuplicateNamesFail` | mailchat.go:387-402 | Two plain-module blocks sharing a name or alias fail the build. So does a name that was already registered. |
| `ModuleGraphProperties.NoEndpointFails` | mailchat.go:408-410 | A configuration without an endpoint block fails the build, returning no lists. |
| `ModuleRegistry.Registry.GetEndpoint` | mailchat.go:371 | Returns a factory exactly when the type is registered in the endpoint namespace, and returns that factory. |
| `ModuleRegistry.Registry.Get` | mailchat.go:382 | Returns a factory exactly when the type is registered in the plain-module namespace, and returns that factory. |
| `ModuleRegistry.Registry.HasInstance` | mailchat.go:387 | True exactly for names taken as a canonical instance name or as an alias. |
| `ModuleRegistry.Registry.RegisterInstance` | mailchat.go:396 | Records the instance under its instance name and changes nothing else. |
| `ModuleRegistry.Registry.RegisterAlias` | mailchat.go:401 | Maps the alias to the canonical name and changes nothing else. |
| `ModuleRegistry.Registry.MarkInitialized` | mailchat.go:417 | An `Init` call adds the instances it initialised to `Initialized`, and only those. |
| `Hooks.HookList.AddHook` | mailchat.go:421-429 | Appends one hook after the existing ones. |
| `ModuleInit.InitModules` | mailchat.go:415-442 | `Initialized`, the new shutdown hooks and the returned error are what `InitEndpoints` and `FirstUnused` specify from the old `Initialized`. |
| `ModuleInit.InitEndpoints` | mailchat.go:416-430 | The endpoint loop only adds to `Initialized` and only appends to the closers collected so far. `EndpointsInitInOrder` states in what order and up to where. |
| `ModuleInit.InitPrefix` | mailchat.go:416-420 | Counts the endpoints, from the first, whose `Init` succeeds. The one after them, if any, fails. |
| `ModuleInit.EndpointsInitInOrder` | mailchat.go:416-430 | Endpoints are initialised in order and the loop stops at the first `Init` error, which is returned unchanged. No later endpoint's `Init` has any effect. A shutdown hook is added exactly for each closable endpoint that initialised, in endpoint order. |
| `ModuleInit.FirstUnused` | mailchat.go:432-439 | Finds nothing exactly when every plain module is in `Initialized`. Otherwise it finds the first one in order that is not. |
| `ModuleInit.UnusedReportedFirst` | mailchat.go:432-439 | An "unused configuration block" error names the first uninitialised plain module by its block's file and line, its instance name and its type. |
| `ModuleInit.InitSucceedsIff` | mailchat.go:415-442 | `initModules` succeeds exactly when every endpoint initialises and every plain module ends up initialised. Every closable endpoint then has its shutdown hook. |
| `BlockchainTx.HeaderGet` | internal/modify/blockchain_tx.go:65-66 | A non-empty value comes from a field whose key matches without regard to ASCII case. `HeaderGetFirst` and `HeaderGetAbsent` pin it down. |
| `BlockchainTx.HeaderGetFirst` | internal/modify/blockchain_tx.go:65-66 | The value is that of the first field whose key matches. |
| `BlockchainTx.HeaderGetAbsent` | internal/modify/blockchain_tx.go:65-66 | With no matching field the value is "". |
| `BlockchainTx.BlockchainTxSender.constructor` | internal/modify/blockchain_tx.go:25-33 | Keeps the type, instance name and inline arguments. No chain is bound yet. |
| `BlockchainTx.BlockchainTxSender.Init` | internal/modify/blockchain_tx.go:35-38 | Binds the resolved chain. On a resolution error it returns that error and the chain stays as it was. |
| `BlockchainTx.BlockchainTxSender.Name` | internal/modify/blockchain_tx.go:40-42 | Is the module type name it was created with. |
| `BlockchainTx.BlockchainTxSender.InstanceName` | internal/modify/blockchain_tx.go:44-46 | Is the instance name it was created with. |
| `BlockchainTx.BlockchainTxSender.ModStateForMsg` | internal/modify/blockchain_tx.go:48-50 | Returns the modifier itself, without error. |
| `BlockchainTx.BlockchainTxSender.RewriteSender` | internal/modify/blockchain_tx.go:52-54 | The sender comes back unchanged, never with an error. |
| `BlockchainTx.BlockchainTxSender.RewriteRcpt` | internal/modify/blockchain_tx.go:56-58 | Each recipient comes back as the one-element list of itself, never with an error. |
| `BlockchainTx.BlockchainTxSender.RewriteBody` | internal/modify/blockchain_tx.go:60-69 | A transaction is submitted exactly when three things hold: a chain is bound, its type equals the `X-Blockchain-Type` value, and `X-Blockchain-Tx` is non-empty. Exactly that header value is submitted and the chain's error is returned unchanged. Otherwise nothing is sent and there is no error. |
| `BlockchainTx.BlockchainTxSender.Close` | internal/modify/blockchain_tx.go:71-73 | Always succeeds. |
| `BlockchainTx.SubmitsNamedTransaction` | internal/modify/blockchain_tx.go:60-69 | Suppose the first `X-Blockchain-Type` field (compared case-insensitively) names the bound chain and the first `X-Blockchain-Tx` field is non-empty. Then that field's value is what gets submitted, whatever other fields the header has. |
| `BlockchainTx.NothingSentWithoutTransaction` | internal/modify/blockchain_tx.go:65-68 | A header without an `X-Blockchain-Tx` field causes no submission and no error. |
| `HashCommand.Message` | internal/cli/ctl/hash.go:66-114 | The command's own errors (unknown hash, bcrypt cost too big or too small) start with "Error: ", and the unknown-hash text starts with "Error: Unknown hash function, available: ". Errors from reading the password or from the hash function are passed on unchanged. |
| `HashCommand.UnknownHashListsNames` | internal/cli/ctl/hash.go:60-66 | Every available algorithm name occurs in the unknown-hash error text, which joins them with ", ". |
| `HashCommand.HashName` | internal/cli/ctl/hash.go:54-57 | The algorithm name is never empty. A non-empty flag is used as given; an empty one gives the default hash. |
| `HashCommand.ResolveOptions` | internal/cli/ctl/hash.go:69-92 | Fails exactly when a set bcrypt cost lies outside [4, 31]. Otherwise the bcrypt cost is the flag's value when set and bcrypt's default cost 10 when not, within [4, 31], and the Argon2 values fit a uint32, a uint32 and a uint8. `DefaultOptions`, `BcryptCostBounds` and `Argon2OptionsIndependent` state the rest. |
| `HashCommand.AvailableHashes` | internal/cli/ctl/hash.go:60-64 | Lists every known algorithm name exactly once, and nothing else, in the map's unspecified order. |
| `HashCommand.Password` | internal/cli/ctl/hash.go:94-103 | Uses the `--password` value when set. Otherwise it uses the line read, and a read error is returned. |
| `HashCommand.Warnings` | internal/cli/ctl/hash.go:105-110 | Warns about an empty password exactly when it is empty, and about white space exactly when trimming changes it. No other line is written, and never both: an empty password has nothing to trim. |
| `HashCommand.Run` | internal/cli/ctl/hash.go:53-118 | An unknown name is an error listing all known names, and nothing is hashed. Otherwise the result is, in this order: the option error; the password read error; the hash function's error; or the output line `name + ":" + hash`. No warning is written before the password is obtained. After that, the password warnings are written whether or not hashing then fails. The hash is computed from the resolved options and the unmodified password. |
| `HashCommand.DefaultOptions` | internal/cli/ctl/hash.go:46-74 | With no option flag set, the options are bcrypt cost 10 and Argon2 memory 1024, time 2, threads 1. The time of 2 differs from the 3 that the flag advertises. |
| `HashCommand.BcryptCostBounds` | internal/cli/ctl/hash.go:75-83 | A set bcrypt cost is accepted exactly within [4, 31], and is then used as given. Above 31 it is "too big"; below 4 it is "too small". |
| `HashCommand.Argon2OptionsIndependent` | internal/cli/ctl/hash.go:84-92 | Each Argon2 option leaves its default only when its own flag is set. The value is then truncated to uint32, uint32 or uint8 respectively. |
| `CobraAdapter.CobraArgs.First` | internal/cli/cobra_adapter.go:81-86 | Is `args[0]` for non-empty arguments and "" otherwise. |
| `CobraAdapter.CobraArgs.Get` | internal/cli/cobra_adapter.go:88-93 | For n ≥ 0, is `args[n]` below the length and "" from the length on. A negative n is excluded because the source would panic. |
| `CobraAdapter.CobraArgs.Len` | internal/cli/cobra_adapter.go:95-97 | Is the number of arguments. |
| `CobraAdapter.CobraContext.Args` | internal/cli/cobra_adapter.go:54-57 | Views the context's own arguments. |
| `CobraAdapter.CobraContext.NArg` | internal/cli/cobra_adapter.go:59-62 | Is the number of arguments. |
| `CobraAdapter.ExitError.Error` | internal/cli/cobra_adapter.go:105-107 | Is the error's message. |
| `CobraAdapter.Exit` | internal/cli/cobra_adapter.go:109-113 | Gives an error whose `Error()` is the message and whose code is the code. |
| `CobraAdapter.FirstIsGetZero` | internal/cli/cobra_adapter.go:81-93 | `First() == Get(0)` for every argument list. |
| `CobraAdapter.NArgIsLen` | internal/cli/cobra_adapter.go:54-97 | The context's `NArg()` equals `Args().Len()`. |
| `Prompt.Selection` | internal/cli/prompt.go:17-20 | The choice is `x/y`-shaped with a lower- or upper-case y and n. The default answer's letter, and only it, is upper case. |
| `Prompt.Classify` | internal/cli/prompt.go:28-35 | A line is a yes exactly when, trimmed and lower-cased, it is "y" or "yes". It is a no exactly when it is "n" or "no". Anything else is no answer. |
| `Prompt.Confirmation` | internal/cli/prompt.go:16-36 | A failed read gives false whatever the default. A yes answer gives true, a no answer false, and anything else the default. |
| `Prompt.ExplicitAnswers` | internal/cli/prompt.go:28-35 | After trimming and lower-casing, "y"/"yes" give true and "n"/"no" give false. Any other line gives the default, the empty line included. |
| `Prompt.PaddingIgnored` | internal/cli/prompt.go:28 | Leading and trailing white space never changes the answer. |
| `Prompt.CaseIgnored` | internal/cli/prompt.go:28 | Upper-casing the ASCII letters of the line never changes the answer. |
| `Prompt.SpacedUpperYes` | internal/cli/prompt.go:28-30 | `" YES "` is a yes whatever the default. |
| `Prompt.LongSIsNoAnswer` | internal/cli/prompt.go:28-35 | "yeſ" (long s, U+017F) is no answer and gives the default, since lower-casing leaves that rune as it is. |

## Left out

- Run-time wiring of the two entry points is not modelled: `RunCobra`, `InitDirs`, debug flags, `ReadGlobals`, signal handling, `systemdStatus`, `hooks.RunHooks`. These do I/O, read the environment, or call packages that are not part of this model.
- Global configuration (`globals`, `config.NewMap`) and a block's nested directives are not modelled. They only pass through to factories and `Init`, whose behaviour is an oracle here.
- The `file:line:` prefix that `config.NodeErr` adds to an error message is not modelled, since the config package is not part of this model. Errors carry the offending block instead.
- Debug logging in `RegisterModules`, and what a shutdown hook does when run (closing and logging), are not modelled. A hook is recorded as "close this instance".
- `ModuleGraph.RegisterModules`: a plain-module factory is modelled only by whether it fails. The instance is identified by the type and instance name it was given, as `NewBlockchainTxSender` does (internal/modify/blockchain_tx.go:25-33). A factory that returns an instance with a different name is not modelled.
- `ModuleInit.InitModules`: an endpoint's `Init` and its `io.Closer` capability are functions of the instance's (type, instance name) identity. Two endpoints with equal identity therefore behave alike.
- `BlockchainTx.HeaderGet` compares keys by ASCII case only. Canonicalisation of keys that are not valid header tokens is not modelled, because the message header package is not part of this model. `BlockChain.CheckSign` is not used by the modifier and is left out. The `context.Context` arguments are dropped.
- The hash computations (bcrypt, Argon2, …) are opaque entries of a table parameter. Reading the password from the terminal is a parameter. The warnings written to standard error and the line written to standard output are returned as values instead.
- `pass_table` is not part of this model. Its default algorithm name is taken to be "bcrypt". The bcrypt bounds 4/31 and default 10 are those of golang.org/x/crypto/bcrypt.
- `Prompt.CaseIgnored`: upper-casing is modelled for ASCII letters only (`Text.ToUpper`). For Go's full `strings.ToUpper` the property does not hold: "yeſ" upper-cases to "YES", a yes, while "yeſ" itself is no answer (`LongSIsNoAnswer`).
- `Text.ToLower` folds ASCII letters only. This does not change how a prompt answer is classified: no other rune lower-cases to one of the letters of "y", "yes", "n" or "no".
- `CobraContext` flag getters (`String`, `StringSlice`, `Int`, `Bool`, `IsSet`, `Path`) are left out. They are thin wrappers over the cobra flag set. `Exit`'s echo to standard error is also left out.
- The prompt text and the scanner's error message are not modelled; they are written to standard error.
