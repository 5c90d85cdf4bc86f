# A verified model of seven small parts of the Melon/Enzyme protocol repository

This project models, in Dafny, the decision logic of seven independent pieces of
the repository and proves what their code and tests promise:

- **The contract build script** (`bin/compile.ts`). It resolves a missing import
  to the one source file of that name, and an import it cannot resolve aborts
  the run before anything is written. It sorts compiler diagnostics into
  warnings and errors with the regular expression `^(.*:[0-9]*:[0-9]* )?Warning: `.
  It keys sources by base name. It writes four artifact files per `source:Contract`
  name and warns about duplicate names. It resets the output directory only on the
  default query and writes the result and messages files; under another query
  without an output directory that first write throws. It picks the exit code.
  The filesystem is a map from paths to contents. The compiler and the glob are
  parameters.
- **`callOnExchange` argument packing**: the fixed eight-slot argument list. The
  slots hold six addresses, eight values, and the identifier rendered as `0x`
  plus 64 lower-case hex digits. This part comes with an unpacking inverse.
- **The vault-call builders** of the test scaffolding, chiefly the padding of a
  gauge list to an `address[8]` argument.
- **The MinMaxInvestment policy** as its test pins it down: the PolicyManager
  guard, the settings check, the settings store and the `validateRule` bound check.
- **The Curve adapter's `parseAssetsForMethod`** as its test pins it down.
- **The Participation investment request lifecycle** (request, execute, cancel) as
  its unit test pins it down. Price validity and "amount too low" are oracle
  booleans.
- **The two Boolean mock policies and the PolicyManager's `preValidate`**.

Files: `wrappers.dfy` (Option/Result), `strings.dfy`, `paths.dfy`, `hex.dfy`,
`ethereum.dfy` (Address, AddressZero, Ether), `diagnostics.dfy`,
`import_resolver.dfy`, `sources.dfy`, `artifacts.dfy`, `compile_pipeline.dfy`,
`call_on_exchange.dfy`, `vault_calls.dfy`, `min_max_investment.dfy`,
`curve_adapter.dfy`, `participation.dfy`, `boolean_policies.dfy`.

The Solidity contracts behind the last four components are not part of this
model. Their behaviour is taken from what the tests assert. The choices the model
makes where the tests are silent are listed under "Left out", one line each. A test's `toBeRevertedWith` and
`toThrow` accept any reason containing the text. The model gives each revert
exactly the text the test names.

## Model

| member | source | states |
|---|---|---|
| ImportResolver.FindImports | bin/compile.ts:35-56 | No matching file gives "not found". Two matches give "ambiguous" with every candidate path in glob order. Otherwise the result is the contents of a matching file. |
| ImportResolver.Candidates | bin/compile.ts:36-37 | A file is a candidate exactly when its path is the name or ends in `/name`. |
| ImportResolver.CandidatesCount | bin/compile.ts:39-47 | Zero candidates exactly when no file matches; two or more exactly when two distinct files match. |
| ImportResolver.MatchesBareName | bin/compile.ts:36 | For a name without `/`, `<src>/**/name` matches exactly the files with that base name. |
| ImportResolver.DuplicateBasenameIsAmbiguous | bin/compile.ts:39-43 | Two files with the same base name make the import fail as ambiguous, and the error lists both paths. |
| ImportResolver.UniqueBasenameResolves | bin/compile.ts:49-55 | With unique base names, an import resolves to the contents of the file with that base name. |
| Diagnostics.IsWarningMatchesPattern | bin/compile.ts:122 | The operational classifier accepts exactly the messages the regular expression matches. The regex `.` excludes line terminators. |
| Diagnostics.HasLocationMatchesPattern | bin/compile.ts:122 | Trimming two trailing digit runs recognises exactly the location pattern `.*:[0-9]*:[0-9]*`. |
| Diagnostics.LocationOf | bin/compile.ts:122 | Any `<file>:<line>:<column>` with the file name on one line and digit-only line and column is a location. |
| Diagnostics.LocatedWarningOf | bin/compile.ts:122 | A location, a space, `Warning: ` and any text make a warning. |
| Diagnostics.LocatedWarningExample | bin/compile.ts:122 | `foo.sol:3:5 Warning: …` is a warning. |
| Diagnostics.LocatedErrorExample | bin/compile.ts:122 | `foo.sol:3:5 Error: …` is not a warning. |
| Diagnostics.NoWarningWithoutW | bin/compile.ts:122 | A message without the letter `W` is never a warning. |
| Diagnostics.Select | bin/compile.ts:119-128 | Each selected message has the requested classification and comes from the input. |
| Diagnostics.Classify | bin/compile.ts:119-128 | The loop builds the warning and error lists as the order-preserving selections. |
| Diagnostics.SelectAppend | bin/compile.ts:121-128 | Selection distributes over concatenation, so order is kept within each list. |
| Diagnostics.SelectPartitions | bin/compile.ts:119-128 | Warnings plus errors are the messages as a multiset; the lengths add up. |
| Diagnostics.SelectMembership | bin/compile.ts:121-126 | A message lands in the list of its own class and not in the other. |
| Diagnostics.ExitCode | bin/compile.ts:158-165 | The code is 0 or 1, and 0 exactly when there is no error. |
| Diagnostics.ExitZeroIffAllWarnings | bin/compile.ts:119-165 | The code is 0 exactly when every diagnostic is a warning; warnings alone never fail the run. |
| SourceCollector.MergeSourcesKeys | bin/compile.ts:108-114 | The keys are exactly the base names of the matched files. |
| SourceCollector.LaterFileWins | bin/compile.ts:114 | A key holds the contents of the last file with that base name. |
| SourceCollector.SameBasenameCollapses | bin/compile.ts:108-114 | Two files with one base name collapse to one entry holding the later file. |
| Strings.SplitParts | bin/compile.ts:59 | `split(':')` yields parts free of `:` that join back to the name. There is more than one part exactly when `:` occurs. |
| Strings.SplitJoin | bin/compile.ts:59 | Splitting a `:`-join of `:`-free parts gives the parts back. |
| Paths.DirBasenameJoin | bin/compile.ts:60-62 | Joining a path's directory and base name gives the path back. |
| Artifacts.ArtifactBase | bin/compile.ts:59-62 | A qualified name fails exactly when it has no `:`, because the contract name is then undefined and `path.join` throws. |
| Artifacts.ArtifactBaseOfQualified | bin/compile.ts:59-62 | For `S:C` the base is `out`, joined with the directory of S, joined with C. |
| Artifacts.TopLevelArtifactBase | bin/compile.ts:59-62 | A source with no directory part puts its artifacts straight into `out`. |
| Artifacts.ArtifactPathsDistinct | bin/compile.ts:75-84 | The four files `.bin`, `.abi.json`, `.abi` and `.gasEstimates.json` are distinct, and each is an artifact path. |
| Artifacts.ArtifactPathsInjective | bin/compile.ts:75-84 | Different base paths never share an artifact file. |
| Artifacts.WriteAtWrote | bin/compile.ts:66-84 | It warns exactly when `<base>.abi` exists, writes the four files with their contents whatever the warning, and changes nothing else. |
| Artifacts.WriteFiles | bin/compile.ts:58-85 | It fails exactly on an unqualified name; otherwise it writes at the derived base. |
| Artifacts.WriteAllFails | bin/compile.ts:150 | The loop over the contracts stops with an error exactly when some contract name lacks `:`. |
| Artifacts.WriteAllKeepsOtherFiles | bin/compile.ts:150 | Writing the contracts creates, removes or changes no file that is not an artifact. |
| Artifacts.WriteAllKeys | bin/compile.ts:150 | After writing the contracts, the files are the old ones plus the four artifacts of each qualified contract before the first unqualified one. |
| Artifacts.WrittenPathOfEntry | bin/compile.ts:58-85 | Every file the writes add is an artifact of one of the contracts. |
| Artifacts.DistinctBasesNoWarnings | bin/compile.ts:68-73 | With distinct new base paths, no duplicate warning is printed. |
| Artifacts.WriteAllWarnings | bin/compile.ts:68-73 | The warnings of writing every contract are one per entry whose `.abi` is present when its turn comes, counting files written by earlier entries, in entry order. |
| Artifacts.PresentBaseWarned | bin/compile.ts:68-73 | An entry whose `.abi` already exists is reported. |
| Artifacts.RepeatedBaseWarned | bin/compile.ts:68-73 | A later entry with the same base path as an earlier one is reported. |
| Artifacts.LastWriteWins | bin/compile.ts:75-84 | The files at a base path hold the last contract written there. |
| Artifacts.UntouchedBase | bin/compile.ts:75-84 | Contracts at other base paths leave a base's files alone. |
| CompilePipeline.Reset | bin/compile.ts:132-136 | `rimraf` and then `mkdirp` remove everything beneath the output directory and keep the rest unchanged. |
| CompilePipeline.WarnLines | bin/compile.ts:69-72 | Each duplicate warning reaches standard error followed by a newline. |
| CompilePipeline.FirstImportFailureIffUnresolved | bin/compile.ts:35-47 | `findImports` throws during compilation exactly when some import the compiler asks for has no single match. |
| CompilePipeline.FirstImportFailureIsFirst | bin/compile.ts:35-47 | The error thrown is that of an import all of whose predecessors resolved. |
| CompilePipeline.CompileGlob | bin/compile.ts:101-166 | An import that does not resolve throws out of `solc.compile`, before anything is echoed or written. Otherwise standard error starts with the diagnostics. A missing output directory under another query makes the result write throw, with the tree unchanged. With the directory in place, the run throws exactly when a contract name is unqualified, and it otherwise exits with the code chosen from the errors. |
| CompilePipeline.AfterCompile | bin/compile.ts:118-165 | After compilation, a missing output directory throws ENOENT at the result write, with only the diagnostics echoed and no file touched. Otherwise the run goes on as `WriteOutputs`. |
| CompilePipeline.WriteOutputs | bin/compile.ts:118-165 | With the output directory in place, the diagnostics are echoed first, the run throws exactly when a contract name is unqualified, and otherwise exits with the code chosen from the errors. |
| CompilePipeline.ResolvedRun | bin/compile.ts:116-166 | Once the imports resolve, the run continues with the compiler output. |
| CompilePipeline.OutcomeTree | bin/compile.ts:116-150 | The final tree is the contracts written over the reset tree plus the result and messages files. It is the tree unchanged when an import fails or the output directory is missing. |
| CompilePipeline.ExitsCleanlyIffOnlyWarnings | bin/compile.ts:116-165 | The run exits with 0 exactly when every import resolves, the output directory exists or is made, every name is qualified and every diagnostic is a warning. The code is always 0 or 1. |
| CompilePipeline.ImportFailureAborts | bin/compile.ts:35-47 | A failed import leaves the tree and standard error untouched and throws the error of the first import that does not resolve. |
| CompilePipeline.MissingOutputDirThrows | bin/compile.ts:132-141 | Under another query with no output directory, the result write throws ENOENT. The diagnostics have been echoed and no file is touched. |
| CompilePipeline.MissingOutputDirExample | bin/compile.ts:132-141 | A subdirectory query into an empty tree without `out` throws at the result write even though the compiler reports nothing. |
| CompilePipeline.ErrorsRepeatedLast | bin/compile.ts:158-161 | On failure the last stderr write is the errors joined by blank lines. |
| CompilePipeline.AfterCompileErrorsLast | bin/compile.ts:158-161 | After compilation, exit code 1 comes with the errors joined by blank lines as the last stderr write. |
| CompilePipeline.ResultAlwaysWritten | bin/compile.ts:138-141 | Once the imports resolve and the output directory is there, `compilerResult.json` holds the compiler output, even when writing a contract throws later. |
| CompilePipeline.MessagesWrittenIffAny | bin/compile.ts:132-148 | Once the imports resolve and the output directory is there: with diagnostics, `compilerMessages.txt` holds them joined by blank lines. Without any, a fresh run leaves no such file and another query keeps the old one. |
| CompilePipeline.FreshRunClearsOutput | bin/compile.ts:132-150 | After a default-query run whose imports resolve, every file under the output directory is the result, the messages or an artifact of a contract of this run (the downloaded Uniswap files, which are not modelled, come on top). No artifact of an earlier run survives. |
| CompilePipeline.FreshBeforeUnder | bin/compile.ts:132-148 | After the reset and the two writes, the output directory holds only the result and the messages. |
| CompilePipeline.OtherQueryDeletesNothing | bin/compile.ts:132-136 | A non-default query deletes no file. |
| CompilePipeline.OtherQueryKeepsFiles | bin/compile.ts:132-150 | A non-default query keeps the contents of every file that is not an artifact, the result or the messages. |
| CompilePipeline.OutsideOutputKept | bin/compile.ts:132-150 | Files outside the output directory survive every run, unless they are artifact paths. |
| CompilePipeline.ExplicitDefaultQuery | bin/compile.ts:101-132 | Passing the default query explicitly is the same as passing none. |
| CompilePipeline.AfterCompileDefaultQuery | bin/compile.ts:101-132 | After compilation, the default query given explicitly behaves as no query. |
| Hex.ToHex | src/contracts/fund/trading/transactions/callOnExchange.ts:79-80 | `toString(16)` gives lower-case hex digits with no leading zero. |
| Hex.ParseToHex | src/contracts/fund/trading/transactions/callOnExchange.ts:79-80 | Parsing the hex rendering of `n` gives `n`. |
| Hex.ToHexLength | src/contracts/fund/trading/transactions/callOnExchange.ts:79-81 | The rendering fits in k digits exactly when n < 16^k. |
| Hex.PadStart | src/contracts/fund/trading/transactions/callOnExchange.ts:81 | `padStart` puts pad characters in front up to the length and never cuts a longer string. |
| Hex.LeadingZeros | src/contracts/fund/trading/transactions/callOnExchange.ts:81 | Leading zeros do not change the parsed number. |
| CallOnExchange.IdentifierHex | src/contracts/fund/trading/transactions/callOnExchange.ts:79-81 | The identifier string is `0x` followed by hex digits only. |
| CallOnExchange.IdentifierLength | src/contracts/fund/trading/transactions/callOnExchange.ts:79-81 | It is 66 characters exactly when identifier < 16^64, and never shorter. |
| CallOnExchange.IdentifierParses | src/contracts/fund/trading/transactions/callOnExchange.ts:79-81 | Parsing the digits after `0x` recovers the identifier. |
| CallOnExchange.PrepareArgs | src/contracts/fund/trading/transactions/callOnExchange.ts:65-85 | The packed list has eight entries. |
| CallOnExchange.Unpack | src/contracts/fund/trading/transactions/callOnExchange.ts:65-85 | A list that unpacks has 8 slots, 6 addresses and 5 quantity texts. |
| CallOnExchange.UnpackPrepareArgs | src/contracts/fund/trading/transactions/callOnExchange.ts:65-85 | Round trip. Slots 0 and 1 hold the index and method. The addresses are `[maker, taker, makerAsset, takerAsset, feeRecipient, senderAddress]`. The eight values come in source order. The identifier parses back. Signature, maker and taker asset data follow last, in that order. |
| CallOnExchange.PrepareArgsInjective | src/contracts/fund/trading/transactions/callOnExchange.ts:65-85 | Two orders that pack alike agree on every copied field. |
| CallOnExchange.PostProcess | src/contracts/fund/trading/transactions/callOnExchange.ts:88-90 | The receipt is returned unchanged. |
| VaultCalls.ApproveAsset | packages/testutils/src/scaffolding/vaultCalls.ts:13-29 | It calls `approve` on the asset with `(spender, amount)` typed `(address, uint256)`; a missing amount is MaxUint256. |
| VaultCalls.ApproveDefaultIsMax | packages/testutils/src/scaffolding/vaultCalls.ts:17 | Omitting the amount is the same call as passing MaxUint256. |
| VaultCalls.Mint | packages/testutils/src/scaffolding/vaultCalls.ts:31-41 | One address argument, the gauge, sent to the minter. |
| VaultCalls.ToggleApproveMint | packages/testutils/src/scaffolding/vaultCalls.ts:64-78 | One address argument, the account, sent to the minter. |
| VaultCalls.Padded | packages/testutils/src/scaffolding/vaultCalls.ts:52-55 | The gauges in order, then zero addresses, max(8, n) entries in all. |
| VaultCalls.FormatGauges | packages/testutils/src/scaffolding/vaultCalls.ts:52-55 | The fill-then-assign loop, including array growth past index 7, computes the padded list. |
| VaultCalls.PaddedFitsEight | packages/testutils/src/scaffolding/vaultCalls.ts:52-55 | Up to 8 gauges give exactly 8 entries: the gauges in order, then zero addresses. |
| VaultCalls.MintMany | packages/testutils/src/scaffolding/vaultCalls.ts:43-62 | One `address[8]` argument holding the padded gauge list, sent to the minter. |
| MinMaxInvestment.Deploy | tests/release/extensions/policy-manager/policies/MinMaxInvestmentAmount.test.ts:56-64 | A new policy records its PolicyManager and has no fund settings. |
| MinMaxInvestment.AddFundSettings | tests/release/extensions/policy-manager/policies/MinMaxInvestmentAmount.test.ts:70-137 | Any caller other than the PolicyManager is refused first. Then min ≥ max with max ≠ 0 is refused. Otherwise the pair is stored and FundSettingsSet is emitted; both failures are covered. |
| MinMaxInvestment.UpdateFundSettings | tests/release/extensions/policy-manager/policies/MinMaxInvestmentAmount.test.ts:139-208 | Updating behaves exactly as adding: the same guard, check, store and event. |
| MinMaxInvestment.GetFundSettings | tests/release/extensions/policy-manager/policies/MinMaxInvestmentAmount.test.ts:130-136 | A fund never configured reads (0, 0). |
| MinMaxInvestment.SettingsReadBack | tests/release/extensions/policy-manager/policies/MinMaxInvestmentAmount.test.ts:111-136 | After a successful add, reading back gives the stored pair; other funds are unchanged. |
| MinMaxInvestment.RejectedCallMessages | tests/release/extensions/policy-manager/policies/MinMaxInvestmentAmount.test.ts:82-108 | Each refusal carries the exact reason the tests expect. |
| MinMaxInvestment.AcceptableSettingsCases | tests/release/extensions/policy-manager/policies/MinMaxInvestmentAmount.test.ts:87-109 | Max 0 is accepted with any min, (0, 0) included; min ≥ max ≠ 0 is refused. |
| MinMaxInvestment.AddThenReadScenario | tests/release/extensions/policy-manager/policies/MinMaxInvestmentAmount.test.ts:71-136 | The test's add of (1, 2) ether stores the pair and fires the event. A stranger is refused, and so are (1, 1) and (2, 1). |
| MinMaxInvestment.ValidateRule | tests/release/extensions/policy-manager/policies/MinMaxInvestmentAmount.test.ts:210-367 | The verdict is the bound check on the fund's stored settings and the investment amount. |
| MinMaxInvestment.PassesRuleBounds | tests/release/extensions/policy-manager/policies/MinMaxInvestmentAmount.test.ts:286-366 | A zero min is no lower bound. A zero max is no upper bound unless min is zero too. |
| MinMaxInvestment.ClosedFund | tests/release/extensions/policy-manager/policies/MinMaxInvestmentAmount.test.ts:261-284 | Under (0, 0) only a zero amount passes. |
| MinMaxInvestment.UnconfiguredFundIsClosed | tests/release/extensions/policy-manager/policies/MinMaxInvestmentAmount.test.ts:261-284 | A fund without settings admits only a zero amount. |
| MinMaxInvestment.AcceptedSettingsInterval | tests/release/extensions/policy-manager/policies/MinMaxInvestmentAmount.test.ts:211-259 | With a nonzero max, an amount passes exactly when it lies between min and max. |
| MinMaxInvestment.OnlyInvestmentAmountMatters | tests/release/extensions/policy-manager/policies/MinMaxInvestmentAmount.test.ts:222-233 | Buyer, GAV, minimum shares, vault and hook do not change the verdict. |
| MinMaxInvestment.BoundedScenario | tests/release/extensions/policy-manager/policies/MinMaxInvestmentAmount.test.ts:211-259 | Under (1, 2) ether, 1 ether passes and 3 ether fails. |
| MinMaxInvestment.NoMinimumScenario | tests/release/extensions/policy-manager/policies/MinMaxInvestmentAmount.test.ts:286-325 | Under (0, 1) ether, 1.5 ether fails and 0.5 ether passes. |
| MinMaxInvestment.NoMaximumScenario | tests/release/extensions/policy-manager/policies/MinMaxInvestmentAmount.test.ts:327-366 | Under (1, 0) ether, 0.5 ether fails and 1.5 ether passes. |
| MinMaxInvestment.ClosedScenario | tests/release/extensions/policy-manager/policies/MinMaxInvestmentAmount.test.ts:261-284 | Under (0, 0), 1 ether fails. |
| MinMaxInvestment.ImplementedHooks | tests/release/extensions/policy-manager/policies/MinMaxInvestmentAmount.test.ts:65-66 | The only implemented hook is PreBuyShares. |
| CurveAdapter.ParseAssetsForMethod | tests/release/e2e/CurveExchangeAdapter.test.ts:56-113 | A foreign selector gives "_selector invalid" whatever the arguments. Then undecodable arguments revert, then a zero pool gives "No pool address provided". Otherwise the result is Transfer with singleton spend and incoming lists from the order. |
| CurveAdapter.ParsedRecoversOrder | tests/release/e2e/CurveExchangeAdapter.test.ts:106-112 | Two valid orders parse alike exactly when they differ at most in the pool. |
| CurveAdapter.AmountsUnchecked | tests/release/e2e/CurveExchangeAdapter.test.ts:87-104 | Any pair of amounts parses, with the minimum incoming above the outgoing amount included. |
| CurveAdapter.TestScenarios | tests/release/e2e/CurveExchangeAdapter.test.ts:57-113 | The three test cases: a bad selector, a zero pool, and the expected output. |
| Participation.SetShutDownState | src/contracts/fund/participation/unit/investment.test.js:48-56 | Only the shutdown flag changes. |
| Participation.RequestInvestment | src/contracts/fund/participation/unit/investment.test.js:45-62 | A shut-down hub is refused first, then an asset that is not permitted. Otherwise exactly the investor's request is recorded with the current time. |
| Participation.ExecuteRequestFor | src/contracts/fund/participation/unit/investment.test.js:77-134 | The errors come in order: shutdown, no valid request, price not valid, amount too low. Success credits the requested shares to the owner and the supply, moves the amount to the vault and closes the request. |
| Participation.CancelRequest | src/contracts/fund/participation/unit/investment.test.js:70-74 | It succeeds exactly for an existing request past its lifespan, removing only that request and refunding its amount. |
| Participation.StepsKeepSharesWithinSupply | src/contracts/fund/participation/unit/investment.test.js:203-209 | Every step keeps each holder's shares within the total supply. |
| Participation.ExecuteTouchesOnlyOwner | src/contracts/fund/participation/unit/investment.test.js:197-212 | Executing changes no other investor's shares or requests, and no other vault asset. |
| Participation.ExecuteOnce | src/contracts/fund/participation/unit/investment.test.js:197-199 | After a successful execute, executing again finds no valid request. |
| Participation.RequestThenExecute | src/contracts/fund/participation/unit/investment.test.js:181-213 | Request then execute issues exactly the requested shares and moves exactly the amount to the vault. |
| Participation.RequestThenCancel | src/contracts/fund/participation/unit/investment.test.js:70-74 | Request then cancel after the lifespan undoes the request and refunds the amount. |
| Participation.ShutDownScenario | src/contracts/fund/participation/unit/investment.test.js:45-75 | The test's sequence: refused while shut down, accepted after reopening, execute refused once shut again, cancel after a week. |
| Participation.NoRequestScenario | src/contracts/fund/participation/unit/investment.test.js:77-100 | With no request, `hasRequest` is false and execute fails. A zero request fails the same way and can be cancelled after a week. |
| Participation.StalePriceScenario | src/contracts/fund/participation/unit/investment.test.js:102-125 | The request exists but execute fails with "Price not valid". |
| Participation.UnpermittedAssetScenario | src/contracts/fund/participation/unit/investment.test.js:136-151 | `investAllowed` is false and the request fails with "Investment not allowed in this asset". |
| Participation.AmountTooLowScenario | src/contracts/fund/participation/unit/investment.test.js:153-173 | 1000 shares for 1 unit fails with "Invested amount too low". |
| Participation.BasicInvestmentScenario | src/contracts/fund/participation/unit/investment.test.js:181-213 | From zero supply, the investor's shares and the supply become 1000, and the vault gains 1000. |
| BooleanPolicies.Rule | src/contracts/fund/policies/unit/mocks.test.ts:38-45 | A policy answers true exactly when it is TruePolicy. |
| BooleanPolicies.RuleIgnoresArguments | src/contracts/fund/policies/unit/mocks.test.ts:38-45 | TruePolicy answers true and FalsePolicy false, for any arguments. |
| BooleanPolicies.Deploy | src/contracts/fund/policies/unit/mocks.test.ts:31 | A new manager has no policies registered. |
| BooleanPolicies.Register | src/contracts/fund/policies/unit/mocks.test.ts:30-36 | Registering appends the policy under its signature and leaves other signatures alone. |
| BooleanPolicies.CheckAll | src/contracts/fund/policies/unit/mocks.test.ts:47-62 | Running policies in order passes exactly when every one answers true; otherwise the reason is "Rule evaluated to false". |
| BooleanPolicies.PreValidate | src/contracts/fund/policies/unit/mocks.test.ts:47-62 | A call passes exactly when every policy registered for its signature answers true. |
| BooleanPolicies.PassesIffNoFalsePolicy | src/contracts/fund/policies/unit/mocks.test.ts:47-62 | A call passes exactly when no FalsePolicy is registered for its signature. |
| BooleanPolicies.FalsePolicyRejects | src/contracts/fund/policies/unit/mocks.test.ts:47-54 | Registering a FalsePolicy refuses every call with that signature, with "Rule evaluated to false". |
| BooleanPolicies.TruePolicyChangesNothing | src/contracts/fund/policies/unit/mocks.test.ts:56-62 | Registering a TruePolicy changes no verdict. |
| BooleanPolicies.OtherSignatureIgnored | src/contracts/fund/policies/unit/mocks.test.ts:30-36 | Policies under other signatures do not take part. |
| BooleanPolicies.MockScenario | src/contracts/fund/policies/unit/mocks.test.ts:47-62 | The test: the FalsePolicy manager refuses the dummy call and the TruePolicy manager accepts it. |

## Left out

- The I/O of `bin/compile.ts`: `glob.sync`, file reads and writes, `mkdirp`, `rimraf`, `solc.compile` and `process.exit`. They are modelled as a filesystem map, the matched-file list, a compiler function and an exit value.
- Directories: of all directories, only whether the output directory exists is modelled. It exists when the run starts if the `outDirMade` flag says so or a file lies beneath it. `mkdirp` of an artifact directory is taken to succeed; a plain file standing where a directory must go is not modelled.
- The download of the two external Uniswap contracts (bin/compile.ts:87-99,152-156): it needs the network.
- The `console.log` banner goes to standard output, which is not modelled.
- `debug(...)` logging: it is assumed disabled. When `DEBUG` matches `melon:protocol:bin` it adds lines to standard error.
- How the compiler uses the contents of a resolved import: it is part of the compiler, which is a parameter. The compiler's answer lists the imports it asks for.
- `JSON.parse` of a contract's interface (bin/compile.ts:78): the interface is assumed to be valid JSON. On invalid JSON the source throws right after writing `.bin`, and the model does not follow that path.
- Path normalisation by `path.join` (`.`, `..`, doubled separators): paths are joined with a single `/`. For a source directly under `/`, `path.parse` gives `dir` `/` while `Paths.Dir` gives the empty string; joining gives the same path either way.
- The layout of `JSON.stringify(…, null, 2)`: file contents written that way are tagged `PrettyJson` and are not rendered.
- `output.errors` is taken to be an array; a compiler output without that field is not modelled.
- The glob in `findImports` is modelled for a missing path written as a file name or relative path matched at any depth. Glob metacharacters in the import name are not interpreted. The glob's `**` does not enter directories whose names start with `.`, but the model matches files there too.
- ImportResolver.FindImports: the candidate paths in the "ambiguous" error are the source tree's relative paths. `glob.sync` of the absolute query gives absolute paths.
- CompilePipeline.CompileGlob: standard error is a list of write chunks rather than one byte stream.
- The `guard` of `callOnExchange` (callOnExchange.ts:34-41): it makes remote calls to the hub.
- The `Number(identifier)` conversion (callOnExchange.ts:79): identifiers are naturals, with no floating-point rounding above 2^53.
- `toString()` of token quantities: it belongs to a library outside this model and is the `show` parameter of `PrepareArgs`.
- ABI encoding, `sighash` and the selector hashes (vaultCalls.ts, mocks.test.ts:19-21, the Curve argument encoder): calls keep their types and values unencoded, and selectors are names or parameters.
- VaultCalls.MintMany: with more than eight gauges the real `encodeArgs(['address[8]'], …)` throws. The model returns the grown list instead.
- MinMaxInvestment.AddFundSettings: no test calls it from a stranger with unacceptable settings. The model checks the caller before the settings.
- MinMaxInvestment.AddFundSettings: no test adds settings twice for one fund. The model overwrites the earlier settings.
- MinMaxInvestment.PassesRule: an amount exactly equal to a nonzero maximum passes. No test covers that case.
- The fund-creation, migration and policy enable/disable integration tests (MinMaxInvestmentAmount.test.ts:369-515) and the Curve `takeOrder` fork tests (CurveExchangeAdapter.test.ts:116-245): they need a live chain.
- CurveAdapter.ParseAssetsForMethod: ABI decoding is left out, so arguments arrive decoded or as "undecodable". An undecodable argument blob reverts without a reason.
- The Participation pricing behind "Price not valid" and "Invested amount too low", amgu fees and token transfers from the investor: the two checks are booleans passed in, and fees are not modelled.
- Participation.RequestInvestment: no test says what a second request does while one is open. The model replaces the earlier request. No test orders the shutdown check against the asset check either; shutdown is checked first.
- Participation.ExecuteRequestFor: no test orders "No valid request" against "Price not valid". The model checks for the request first. The test that executes while the hub is shut down has a valid request open, so it does not order shutdown against "No valid request" either. The model checks shutdown first. A request counts as valid when it exists with a positive share count. The test is just as consistent with a positive investment amount, or with both. Request expiry is not checked.
- Participation.CancelRequest: the request lifespan is a parameter, and the tests only show that a cancel after one week succeeds. The reason text of a refused cancel is not asserted and is left empty.
- BooleanPolicies.Register: any access control on `register` is not modelled, since the test always registers as the deployer. Only pre-validation policies are modelled.
