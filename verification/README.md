# geth-helper script runner, modelled in Dafny

geth-helper runs deployment and test scripts against an Ethereum node. A script is
a JSON file with a variable table (`vars`), a table of already deployed contract
addresses (`addresses`), the Solidity files to compile and a list of step groups.
Each step deploys a contract, calls a contract method, or runs every `test…`
function of a contract. Steps inside one group are signed and sent together; the
runner waits until every transaction of the group is mined before it moves to the
next group.

This project models the step-orchestration core of the runner (src/script.js) and
the helpers it relies on (src/util.js):

- **Reference resolution.** `resolveVar` and `resolveName` look names up in the
  address table and the variable table (`Resolution`, `Runner.ScriptRun`).
- **Step expansion.** `prepareStep` turns one script step into one step per
  resolved key (`Steps`).
- **Transaction preparation.** `prepareTxForStep` does the contract and method
  lookup, argument binding (`prepareArgs`, in `Args`) and library linking
  (`abiReplaceBinaries`, in `Linking`), then checks the payload
  (`Transactions`, `Abi`).
- **Gas ceiling.** `signWithNonce` and `sendTx` refuse a gas estimate above the
  fixed ceiling (`Gas`). Every prepared transaction of a group is signed through
  `signWithNonce` (`Transactions.Sign`, `Runner.SignAll`).
- **Group planning.** `execStep` groups steps by key, expands `test` steps and
  hands out nonces per sender (`Grouping`, `Nonces`, `Runner.ScriptRun.PlanGroup`).
- **Mined callbacks.** These extend the address table and the test-result log
  (`Mined`, `Runner`).
- **Confirmation.** `watchTxs` keeps the pending list (`Watching`).
- **Import rewriting.** `extractImports` rewrites import lines in the Solidity
  source loader (`Imports`). The recorded paths are `ImportsOf(lines)`, which is
  `Collect(lines, ImportOf)`. The `Collect*` lemmas are stated for any line
  classifier, so they hold for `ImportOf` in particular.

How the model represents the source:

- **Values.** Script values are JavaScript values: `undefined`, strings,
  integers and arrays (`JsValues.Value`).
- **Table lookup.** A value is looked up by its JavaScript string form
  (`JsValues.JsString`).
- **Run state.** The run's mutable state is the class `Runner.ScriptRun`. Its
  methods follow the source's loops and carry loop invariants. Each method is
  proved equal to a specification function, and the listed properties are
  proved about that function.
- **Errors.** A `process.exit` or a thrown error becomes an `Err` of
  `Outcomes.Failure`. So does a JavaScript `TypeError` from reading a property
  of `undefined`.
- **External services.** Encoding, key-to-address derivation, JSON parsing,
  event decoding, `realpathSync` and the node's answers are parameters.

Behaviour of the code that the model keeps as it is:

- **No cycle guard.** `resolveVar` and `resolveName` follow the variable table
  with no check for cycles (src/script.js:84-95). A walk that enters a cycle of
  variables never ends. The model has no error for this case. Instead, each
  walk carries a ghost rank on the variable keys under which every chain is
  finite (`Resolution.Ranked`). The `Runner.ScriptRun` constructor requires such
  a rank.
- **Payload check.** A payload is rejected with `Bad data` unless it starts
  with `0x`, and also when it starts with `0x0x` (src/script.js:216-218).
- **Missing call address.** A `call` to a contract without an address only
  prints a message (src/script.js:176-178). It is not a failure in the model.
- **Gas ceiling.** An estimate above 4700000 ends the run
  (src/util.js:86-90). Otherwise the transaction carries the ceiling itself as
  its gas limit, not the estimate (src/util.js:97).

## Model

| member | source | states |
|---|---|---|
| Text.JoinSplit | src/util.js:222-231 | joining the pieces of a line-feed split with line feeds gives the original text back |
| Text.SplitJoin | src/util.js:222-231 | splitting a join of line-feed-free lines gives exactly those lines back |
| Resolution.ResolveInert | src/script.js:89-97 | a value that names no key of either table, at any array depth, resolves to itself |
| Resolution.ResolvedScalarIsTerminal | src/script.js:84-97 | a non-array result of `resolveVar` is either an address-table entry or a literal naming no key of either table |
| Resolution.ReResolveTerminal | src/script.js:89-97 | re-resolving a terminal scalar that is not an address is the identity |
| Resolution.NameIsVarWithoutAddresses | src/script.js:82-114 | with an empty address table `resolveVar` and `resolveName` agree; `resolveName` never consults the address table |
| Resolution.ResolvedNameUnbound | src/script.js:100-114 | a scalar result of `resolveName` is not a key of the variable table |
| Resolution.Resolved | src/script.js:82-98 | the specified resolution: an address-table entry wins, then a variable is followed, then an array is resolved element by element; anything else is itself |
| Resolution.ResolvedName | src/script.js:100-114 | the specified name resolution: variables are followed, arrays are resolved element by element, the address table is never read |
| Runner.ScriptRun.ResolveWithin | src/script.js:82-98 | the `while (true)` walk checks the address table before the variable table at every hop, resolves arrays element-wise, and returns the specified resolution |
| Runner.ScriptRun.ResolveVar | src/script.js:82-98 | `resolveVar(name)` returns the specified resolution of `name` against the run's tables |
| Runner.ScriptRun.ResolveNameWithin | src/script.js:100-114 | the walk through the variable table alone returns the specified name resolution |
| Runner.ScriptRun.ResolveName | src/script.js:100-114 | `resolveName(name)` returns the specified name resolution against the variable table |
| Steps.PrepareStep | src/script.js:117-146 | one step per element of the flattened, resolved key list; each carries that key, the same resolved args, the copied type/contract/method/value/as fields, and an address only when the raw step had a truthy one |
| Steps.KeyListSplits | src/script.js:117-122 | a key list split in two expands to the expansions of the halves, in order |
| Steps.SingletonKeyList | src/script.js:119-121 | a scalar key and the one-element key list holding it expand alike |
| Steps.GroupStepCount | src/script.js:269-271 | a group expands to as many steps as its raw steps have resolved keys in total |
| Abi.FindFunction | src/script.js:180-184 | the method entry is the first ABI item of type function with that (loosely equal) name; none exactly when no item matches |
| Abi.ConstructorInputs | src/script.js:195-199 | the inputs of the first constructor entry, or the empty list when the ABI has none |
| Abi.TestMethodsExact | src/script.js:293-295 | the selected test functions are exactly the ABI functions whose name starts with `test` |
| Abi.TestMethodsAppend | src/script.js:293-295 | test selection keeps ABI order |
| Args.BindArg | src/util.js:401-420 | an undefined argument fails with Missing arg; a string for a `[]` type is replaced by its JSON parse or fails with Failed parsing arg; any other value passes unchanged |
| Args.BindFrom | src/util.js:400-422 | binding succeeds exactly when every declared input binds; the result holds one entry per input, in order, with the input's name and bound value; a failure is that of the first input that does not bind |
| Args.PrepareArgs | src/util.js:400-422 | `prepareArgs`: one named entry per declared input in declaration order, or the failure of the first input that does not bind |
| Args.Values | src/script.js:203-205 | the argument values handed to the encoder are the bound values in order |
| Args.BindFromReadsOnlyDeclared | src/util.js:400-402 | binding depends only on the argument positions of the declared inputs |
| Args.SurplusArgsIgnored | src/util.js:400-402 | arguments beyond the declared inputs are ignored |
| JsValues.JsString | src/script.js:85-87 | the property name a value is looked up under: a string is itself, an integer its decimal text, an array its elements' texts joined with commas (an `undefined` element as the empty text), `undefined` the text `undefined` |
| JsValues.Truthy | src/script.js:142 | JavaScript truthiness: `undefined`, the empty string and 0 are false; everything else is true |
| Abi.LooseEquals | src/script.js:181 | `==` between a string and a script value: `undefined` equals no string, a number compares through its decimal text and an array through its joined text |
| Gas.SignWithNonce | src/util.js:86-99 | an estimate above 4700000 aborts before signing; otherwise the transaction's gas limit is 4700000 and its other fields are the inputs |
| Gas.SendTx | src/util.js:142-148 | an estimate above 4700000 aborts before sending; otherwise the request carries gas 4700000 |
| Gas.EstimateDoesNotReachTx | src/util.js:86-99 | any two estimates within the ceiling give identical transactions |
| Transactions.Sign | src/util.js:66-104 | signing fails exactly when the request's estimate is above 4700000, with that estimate; otherwise the signed fields are the request's nonce, sender, recipient, amount and payload, the node's gas price and the gas limit 4700000 |
| Linking.Scan | src/script.js:164 | every placeholder found is a `__` followed by 38 characters |
| Linking.ScanRender | src/script.js:164-171 | the scan cuts the bytecode without losing or reordering any character |
| Linking.LinkOkIff | src/script.js:164-171 | linking succeeds exactly when every placeholder's library has a non-empty address |
| Linking.LinkFirstFailure | src/script.js:165-169 | a failed link reports the library (trimmed of `_`, cut at `:`, `.sol` removed) of the first placeholder that cannot be linked |
| Linking.LinkWithoutPlaceholders | src/script.js:164-171 | bytecode without placeholders is returned unchanged |
| Linking.LinkPreservesLength | src/script.js:170 | with 42-character library addresses each 40-character placeholder is replaced by 40 characters |
| Linking.LinkLibrariesPreservesLength | src/script.js:163-171 | with 42-character library addresses, linking keeps the bytecode length |
| Linking.LinkIdentityWithoutUnderscorePair | src/script.js:164 | bytecode without two adjacent underscores links to itself whatever the address table |
| Linking.LibraryName | src/script.js:165 | the library name has no `:` and is a prefix of the placeholder with its underscores trimmed |
| Linking.Link | src/script.js:164-171 | the replace callback applied to each piece in order; the first unknown library stops the run |
| Linking.LinkLibraries | src/script.js:163-171 | `abiReplaceBinaries` succeeds exactly when every placeholder's library has a non-empty address; a failure names one such library |
| Linking.NoPairNoPlaceholder | src/script.js:164 | without two adjacent underscores the scan finds no placeholder |
| Transactions.Finish | src/script.js:216-221 | the payload is accepted exactly when it starts with `0x` and not with `0x0x`, otherwise Bad data; the request carries key, nonce, the key's address, `to`, `value || 0` and the payload |
| Transactions.PrepareTx | src/script.js:148-253 | an unknown contract is fatal; a prepared transaction has an accepted payload, the given key and nonce, the key's address as sender and `value || 0` as amount; a deploy has no `to`, and its callback holds the resolved contract name and the step's `as`; a call goes to the resolved contract name, and its callback holds the resolved contract and method names and that address |
| Transactions.CallOutcome | src/script.js:174-221 | a call fails with Unknown method when no function entry matches, and with the argument failure when binding fails; otherwise it succeeds exactly when the encoding of the bound arguments is an accepted payload, whether or not the contract has an address; the request then carries that encoding as its data |
| Transactions.DeployOutcome | src/script.js:191-214 | a deploy binds the constructor inputs first, fails with the unknown library when linking fails, and otherwise succeeds exactly when the encoding does not itself start with `0x`, with payload `0x` + encoding |
| Transactions.PrepareCall | src/script.js:174-190 | the call branch once the contract is known: method lookup, argument binding, encoding and the payload check, in that order |
| Transactions.PrepareDeploy | src/script.js:191-214 | the deploy branch once the contract is known: constructor binding, then linking, then `0x` + encoding and the payload check |
| Grouping.DistinctKeys | src/script.js:273-276 | the group keys are exactly the keys of the steps, each listed once |
| Grouping.DistinctKeysInOrder | src/script.js:273-276 | keys are listed in order of first occurrence: for any two listed keys, a step with the earlier one comes before every step with the later one |
| Grouping.WithKey | src/script.js:273 | a key group holds only steps of the group that carry that key |
| Grouping.WithKeyMultiset | src/script.js:273 | a key group holds every step carrying its key, as often as the step occurs in the group, and nothing else |
| Grouping.WithKeyAppend | src/script.js:273 | filtering by key distributes over concatenation, so a key group keeps its steps in their original order |
| Grouping.GroupedMultiset | src/script.js:273 | groups with distinct keys that each keep exactly the steps of their key hold each step as often as the steps do when its key is among theirs, and never otherwise |
| Grouping.GroupByKeyPartition | src/script.js:273 | `_.groupBy` loses and invents no step: the groups have distinct keys, none is empty, each holds only steps of its own key, and together they hold exactly the steps given, with multiplicity |
| Grouping.GroupsPartition | src/script.js:273 | the group sizes add up to the number of steps |
| Grouping.ExpandStep | src/script.js:291-310 | a non-test step is one job; a test step on a known contract fans out into one call step per test function, in ABI order |
| Grouping.ExpandGroups | src/script.js:290-310 | the jobs of the key groups, group after group, each group's steps in order |
| Grouping.Jobs | src/script.js:273-310 | the jobs of a step group in the order the nested `_.each` loops reach them |
| Grouping.SendsUnderAppend | src/script.js:290-310 | the jobs sent under a key, taken from two job lists in turn, are those of the first list followed by those of the second |
| Grouping.SendsUnderGroups | src/script.js:288-310 | among groups with distinct keys, the jobs sent under a key are exactly those its own group expands to, in order |
| Grouping.KeyJobsInStepOrder | src/script.js:273-310 | the jobs a step group sends under one key are that key's steps in their original order, each expanded as `execStep` expands it; with Runner.PlannedNoncesFromFetch, a key's nonces rise in the order its steps were written |
| Grouping.JobKeysAreUsed | src/script.js:276-290 | every job is sent under one of the group's keys, so its sender has a fetched nonce |
| Nonces.ZipObject | src/script.js:278 | `_.zipObject`: keys are those listed; each maps to the value at its last position |
| Nonces.GetNonces | src/util.js:49-54 | `getNonce` on a list pairs each address with its own fetched count |
| Nonces.CountBeforeMonotone | src/script.js:301-308 | every transaction of a sender advances that sender's counter |
| Nonces.NoncesIncrease | src/script.js:288-310 | two jobs from the same sender get distinct nonces, the later job the larger one |
| Nonces.NoncesGapFree | src/script.js:288-310 | the nonces of a sender are the fetched count n and n+1, n+2, ... with no gap |
| Runner.StartNonces | src/script.js:276-288 | the nonce map has exactly the addresses of the group's keys, maps each to its fetched transaction count, and covers every job's sender |
| Runner.KeyAddresses | src/script.js:277 | the addresses are those of the keys, one per key |
| Runner.PlannedNoncesIncrease | src/script.js:288-310 | in a fully prepared group, two transactions of the same sender carry distinct nonces in job order |
| Runner.PreparedJobs | src/script.js:291-310 | in a fully prepared group every job is sent, and transaction k is job k's, from its key's address, with the nonce the counters hand out |
| Runner.SentBeforeCounts | src/script.js:288-310 | counting a sender's jobs and counting its prepared transactions agree |
| Runner.PlannedNoncesFromFetch | src/script.js:288-310 | in a fully prepared group, each transaction's nonce is its sender's fetched count plus the number of earlier transactions of that sender |
| Runner.PreparedGapFree | src/script.js:288-310 | below the number of transactions a sender signs, every count m is the nonce start + m of one of them |
| Runner.PlannedNoncesGapFree | src/script.js:288-310 | a sender's nonces in a fully prepared group are its fetched count n and n+1, n+2, ... with no gap |
| Runner.SignOutcomes | src/script.js:313 | the signing outcome of each prepared transaction, in order |
| Runner.SignAll | src/script.js:313 | `Promise.all` of the signing promises yields every signed transaction in order, or the failure of the first transaction over the gas ceiling |
| Runner.SignedAsPlanned | src/util.js:86-104 | signing succeeds exactly when no estimate is above the ceiling; it keeps every planned nonce, sender, recipient, amount and payload and sets the gas limit to 4700000; a failure is the first estimate over the ceiling |
| Runner.CounterStep | src/script.js:301-308 | `nonces[fromAddress]++` hands the job its sender's specified nonce and keeps every counter equal to the fetched count plus the transactions signed so far |
| Runner.InOrderFromAll | src/script.js:288-312 | preparing in order yields every job's transaction, or the failure of the first job that fails with all earlier jobs prepared |
| Runner.ScriptRun.PrepareJob | src/script.js:291-308 | one job is prepared with its sender's next nonce, and that sender's counter advances |
| Runner.ScriptRun.PrepareJobs | src/script.js:288-312 | the signing loop with its post-incremented nonce map takes the job outcomes in order, stopping at the first failure |
| Runner.ScriptRun.PlanGroup | src/script.js:265-314 | a step group is expanded and grouped, its senders' nonces are fetched, and every job is prepared in order, or the first failure is reported; a fully prepared group is then signed in order, and the first estimate over the ceiling is the failure |
| Mined.TestLine | src/script.js:245-249 | an assertion event adds exactly its assertion line, and any other event adds none |
| Mined.Assertions | src/script.js:234-250 | the decoded events kept are assertion events decoded from logs of the called contract |
| Mined.LogLinesSnoc | src/script.js:234-250 | `forEach` pushes the lines of the logs in order, one log at a time |
| Mined.LogLinesFromOnly | src/script.js:235-237 | when other contracts' logs add no line, keeping only the called contract's logs gives the same lines |
| Mined.TestLinesMatchAssertions | src/script.js:245-249 | the test-result lines are the assertion lines of the assertion events, one for one |
| Mined.AssertionLineSign | src/script.js:245-249 | an assertion line opens with `+ ` for AssertSuccess and `- ` otherwise |
| Mined.FromOnly | src/script.js:235-237 | the logs kept are exactly those emitted by the called contract |
| Mined.ForeignLogsIgnored | src/script.js:234-237 | logs from other addresses leave no trace in the test results |
| Mined.TestLinesAreAssertions | src/script.js:234-250 | one test line per assertion event of the called contract, in log order: `+ ` for AssertSuccess and `- ` for AssertFailure, then `contract@method`, a space and the event's message; no other lines |
| Mined.TestLinesSnoc | src/script.js:234-250 | test-result lines are pushed in log order, one log at a time |
| Mined.EventLinesSnoc | src/script.js:234-244 | event messages are pushed in log order, one log at a time |
| Runner.AfterEventsAppends | src/script.js:222-253 | test results and messages are only appended to |
| Runner.SilentEventsChangeNothing | src/util.js:478-484 | answers without a receipt, or for hashes without a callback, change nothing |
| Runner.DeployedNameResolves | src/script.js:225 | after a deploy callback runs, resolving its alias (or else its contract name) yields the mined address |
| Runner.DeployedStepResolves | src/script.js:148-225 | the deploy callback prepared for a deploy step records the mined address so that resolving the step's `as`, or else its resolved contract name, yields that address |
| Runner.AfterMined | src/script.js:222-253 | the effect of one mined callback on the address table, the test results and the messages |
| Runner.AfterEvents | src/util.js:478-486 | every receipt answer that fires runs its callback, in arrival order |
| Runner.ScriptRun.constructor | src/script.js:26-29 | a run starts with the given tables, chains finite, and no test results |
| Runner.ScriptRun.ApplyMined | src/script.js:222-253 | a deploy records `CONTRACT_ADDRESS[as or name]` and reports it; a call reports itself, reports its contract's events when asked, and appends `+`/`-` lines for the assertion events |
| Runner.ScriptRun.Confirm | src/script.js:313-325 | the sent hashes are paired with their callbacks; every receipt answer that fires runs its callback, and completion is that of the watch list |
| Watching.RemoveAll | src/util.js:486 | `_.remove` drops every occurrence of the hash and keeps all other entries |
| Watching.Observe | src/util.js:478-491 | one receipt answer: nothing changes without a receipt or a callback; otherwise the hash leaves the list and completion is raised when the list is empty |
| Watching.Replay | src/util.js:470-499 | the watch state after the answers, in arrival order |
| Watching.PendingAfter | src/util.js:478-486 | a hash is still watched exactly when it was watched and no receipt answer fired for it |
| Watching.CompletedAfter | src/util.js:486-491 | completion is raised exactly when some answer fired and the watch list is empty |
| Watching.CompletesIff | src/util.js:478-491 | a group completes exactly when some answer fired and every watched hash got a receipt while it had a callback |
| Watching.EmptyWatchNeverCompletes | src/util.js:488-491 | a group with no transaction never completes |
| Watching.Watcher.constructor | src/util.js:470 | the watcher starts from the given list and callbacks, not completed |
| Watching.Watcher.OnReceipt | src/util.js:478-493 | a missing receipt or a hash without a callback changes nothing; otherwise the callback fires, every occurrence of the hash is removed, and completion is raised when the list becomes empty |
| Imports.SpaceRun | src/util.js:224 | the longest run of `\s` characters at a position |
| Imports.PathRun | src/util.js:224 | the longest run of non-quote characters at a position |
| Imports.ImportAt | src/util.js:224 | one match attempt of `/import\s+["']([^"']+)["']/` at a position |
| Imports.MatchFrom | src/util.js:224 | the first position from which an attempt succeeds |
| Imports.StripFrom | src/util.js:224 | from a position on, the line cut at the first `//` with no line terminator after it, or kept whole when there is none |
| Imports.Rewritten | src/util.js:224-227 | an import line becomes `import "<realpath>";`, any other line is kept |
| Imports.ImportAtSound | src/util.js:224 | a match attempt succeeds only in the shape `import`, spaces, quote, non-quote path, quote |
| Imports.ImportAtComplete | src/util.js:224 | wherever the expression can match, the attempt succeeds with the same captured path |
| Imports.MatchFromLeftmost | src/util.js:224 | the match is the leftmost position where an attempt succeeds |
| Imports.StripFromLeftmost | src/util.js:224 | comment stripping cuts at the leftmost `//` that runs to the end of the line, and keeps the whole line when there is none |
| Imports.CollectAppend | src/util.js:228 | the recorded paths follow line order |
| Imports.CollectCount | src/util.js:225-230 | one path is recorded per import line |
| Imports.CollectMembers | src/util.js:225-230 | the recorded paths are exactly the paths of the import lines |
| Imports.CollectEmpty | src/util.js:225-230 | nothing is recorded exactly when no line is an import line |
| Imports.RewrittenLines | src/util.js:225-230 | one output line per input line |
| Imports.NoImportsUnchanged | src/util.js:220-234 | a file without import lines comes back unchanged and records nothing |
| Imports.ExtractKeepsLines | src/util.js:222-231 | the rewritten code keeps the line count; non-import lines are unchanged |
| Imports.RewrittenLineReimports | src/util.js:226-227 | a rewritten line imports its resolved path again |
| Imports.RewriteLineAt | src/util.js:224-229 | an import line is replaced in the array by its statement, every other entry is kept, and the match is returned |
| Imports.ExtractImports | src/util.js:220-234 | the in-place loop over the lines array yields the rewritten code and the import paths in order |

## Left out

- Network calls are inputs to the model: transaction counts (`fetch`), gas price
  and gas estimates, the hashes `sendRawTransaction` returns, and the receipt
  answers of `getTransactionReceipt`. Block filters, polling and `stopWatching`
  are left out. Each receipt answer is one `Watching.ReceiptEvent`.
- Cryptography is outside the model: key-to-address derivation is the
  uninterpreted `toAddress`, and the signature and serialisation of a
  transaction are not modelled. Wallet decryption and its prompts are left out.
- Library code the model cannot see is represented by parameters: ABI encoding
  (`getData`), event decoding (`allEvents().formatter`), `JSON.parse`,
  `JSON.stringify` of event arguments, and `fs.realpathSync`.
- Compilation, the compile cache, reading the script and the Solidity files,
  the recursive `resolve` around `extractImports`, and the preload file are
  file I/O plus an external compiler.
- Console and colour output is left out: test-result lines and messages carry
  no colour codes. The final printing of the results is also left out.
- Runner.ScriptRun.PlanGroup: promise concurrency is modelled sequentially.
  All jobs of a group are prepared in order, and the first failing job is the
  failure reported. Only then are the prepared transactions signed, and the
  first transaction in job order whose estimate is over the ceiling is the
  failure reported. In the source the estimates arrive asynchronously, after
  every job is prepared. So a `Bad data` error from any job still comes first.
  Among several estimates over the ceiling, the first to arrive ends the run,
  which need not be the first in job order.
- Transactions.Sign: the gas price is one value for the whole group. The source
  asks the node for it once per transaction.
- Nonce counters are plain integers. The JavaScript `NaN` of a missing counter
  cannot arise, because every sender's count is fetched.
- `execStep` recursing over `ALL_STEPS` and `STEP_INDEX` is left out: the model
  covers one group at a time. A single step written in place of a group is the
  one-element group.
- Grouping.DistinctKeys: keys are taken in order of first occurrence. JavaScript
  objects enumerate integer-like keys first, in ascending order, so a group
  whose keys are integer-like strings is planned in a different order by the
  source.
- Script values cover `undefined`, strings, integers and arrays. Booleans, `null`,
  floating-point numbers and objects as values are left out. Loose equality
  between a number and a string is modelled through the integer's decimal text.
- Table lookups do not model inherited object properties: a key such as
  `constructor` or `toString` is found on every JavaScript object.
- Runner.ScriptRun.constructor: the rank it requires makes every variable chain
  finite. That also excludes tables whose cycles the source never reaches, and
  cycles that an address-table entry cuts short. The source runs those to
  completion; the model does not cover them.
- A file-system error from `realpathSync` is not modelled: the resolution
  parameter is total.
