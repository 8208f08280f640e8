# nodelib2-commander in Dafny

This project models the argument-parsing engine of `nodelib2-commander`:
the function `__commander(description, rules)` in `index.js` and the small
helpers it takes from `lib/utils.js`. A call reads a declarative rule
list, builds one scope per command (`$` for the root, one more per `cmd`
object), picks the active scope from the first argument, decides whether
to show the usage screen, scans the remaining tokens into a result object
and validates that object.

The model follows the five stages of the original:

- `types.dfy` (module `Types`) holds the JavaScript values the parser
  handles (`undefined`, strings, numbers, booleans), the rule and field
  spec records, the scope record and the `Host`. The `Host` gathers what
  the engine asks of its environment: the platform, `URL.canParse`,
  `Number()`, the number-to-string conversion, `fs.statSync` and the user
  `test` validators.
- `utils.dfy` (module `Utils`) models `match`, `isPath` with its whitespace
  trim, and `isNum`. `isPath` comes twice: `IsPathAsWritten` is the function
  as its patterns read, and the parser's `path` format uses it.
  `IsPath` is the same function with the drive-letter pattern corrected
  (see "## Findings").
- `rules.dfy` (module `Rules`) gives the meaning of registration:
  - `add_`, `reg_o` and `getChar`;
  - `createRuleItem`, `getRule` and `addRule`;
  - the rule loop, as functions;
  - the invariant every registered scope keeps (`WellFormed`).
- `scanner.dfy` (module `Scanner`) gives the meaning of the token loop.
  `Classify` says what each token is: a help flag, an option with its
  value, a cluster of one-character flags, or a plain token. `Run` folds
  the effect of each step into the fields, the unfilled positionals,
  `$params` and the replacement warnings.
- `validation.dfy` (module `Validation`) covers the format predicates,
  the four checks run on one field, and the pass over all positionals and
  then all options.
- `commander.dfy` (module `Commander`) covers the parser as a whole:
  - the closure state of `__commander` is the class `Commander`;
  - each stage is a method that changes that state and is proved against
    the functions above;
  - `Parse` runs one call;
  - `ParseSpec` is what `Parse` computes, and the end-to-end lemmas are
    stated about it.

How a run ends is the datatype `Outcome`:

- `Ok(result)` is the returned object, with `$cmd` and `$params` held
  beside the field map.
- `Help` is the usage screen, exit status 0.
- `Fail(kind, field)` is a validation error, exit status 1. The one exception
  is `Fail(Threw, field)`: it stands for an exception thrown while checking
  `field` (by `str.replace` in `isPath` on a non-string, or by
  `fs.statSync`). The original does not catch it, so the process ends with
  Node's uncaught-exception status, not with the validation message.

The replacement warnings printed by `console.warn` come back as a list.

Where the library's written description and its code differ, the model
follows the code:

- With no arguments and several scopes, the code shows help only if the
  active scope also has a required positional. The second disjunct at
  `index.js:73-76` implies the first. See `Commander.HelpIff`.
- A bare-name positional is seeded with `''` when it is registered, so the
  required check at `index.js:131` never fires for it. Omitting it does not
  fail. This holds for a top-level bare name when the root scope is active
  (`Commander.BareNeverMissing`), and for a bare name in a subcommand's
  `rules` when that subcommand is active (`Commander.CommandBareNeverMissing`).
- A non-boolean option given as the last token is assigned `undefined`.
  The field is then present, so it is never "missing". Only the format,
  `test` and `values` checks can reject it.
- After the immediate `-= 0` coercion, the `num` format check always
  passes, because `isNum` accepts every number, NaN included. See
  `Validation.CoercedNumAccepted`.

## Model

| member | source | states |
|---|---|---|
| Types.Coerce | index.js:122-124 | `-= 0` always yields a number: `Number()` of a string, NaN for `undefined`, and a number unchanged |
| Utils.Match | lib/utils.js:27-34 | the loop calls `f` on a prefix of the array and stops at the first truthy result. All earlier results were falsy. It returns that result, or the last result when none is truthy, or `null` for an empty array |
| Utils.MatchedFindsFirst | lib/utils.js:27-34 | when `f(a[i])` is the first truthy result, `match` returns exactly it |
| Utils.MatchedWithoutHit | lib/utils.js:27-34 | with no truthy result, `match` returns the last `f` result, or `null` for an empty array |
| Utils.TrimStart | lib/utils.js:12 | drops exactly the leading whitespace: what remains is a suffix that starts with a non-space |
| Utils.TrimEnd | lib/utils.js:12 | drops exactly the trailing whitespace: what remains is a prefix that ends with a non-space |
| Utils.Trim | lib/utils.js:12 | the trimmed string neither starts nor ends with whitespace |
| Utils.TrimKeeps | lib/utils.js:12 | a string without surrounding whitespace is left unchanged |
| Utils.TrimIdempotent | lib/utils.js:12 | trimming twice is trimming once |
| Utils.IsPathIgnoresSurroundingSpace | lib/utils.js:11-12 | `isPath(s) == isPath(trim(s))` on every platform, for the function as written and for the corrected one |
| Utils.PosixShapeIsColonFree | lib/utils.js:17 | the two POSIX patterns together accept exactly the non-empty strings without `:` |
| Utils.PosixIsPath | lib/utils.js:11-20 | off win32, `isPath(s)` holds iff `s` trims to a non-empty string without `:`; the written and corrected functions agree there |
| Utils.ReadingsAgreeOffDrive | lib/utils.js:11-20 | the written and the corrected `isPath` differ only on win32, and only on strings that trim to a drive-letter start `X:\` |
| Utils.Win32RelativeIsPosixShape | lib/utils.js:13-14 | a path the win32 relative pattern accepts has no `:` and no wildcard character, and the POSIX branch accepts it too |
| Utils.DriveRootedNotRelative | lib/utils.js:13-14 | a string starting with `X:\` never passes the win32 relative pattern, so only the drive-letter pattern decides it |
| Utils.DriveRejectedAsWritten | lib/utils.js:14 | as written, win32 `isPath` rejects every drive-rooted string that has no trailing space and not the literal `{}` TAB CR LF at offset 4 |
| Utils.OddShapeAcceptedAsWritten | lib/utils.js:14 | every string of the shape the written pattern reads (`X:\`, one character, `{}` TAB CR LF, a run of `]`) passes `isPath` as written and fails the corrected one |
| Utils.DrivePathRejectedAsWritten | lib/utils.js:14 | the drive-letter pattern as written rejects `C:\Users`; the corrected pattern accepts it |
| Utils.OddTextAcceptedAsWritten | lib/utils.js:14 | the pattern as written accepts `C:\x{}` TAB CR LF `]`; the corrected pattern rejects it |
| Utils.DrivePathAccepted | lib/utils.js:14 | the corrected pattern accepts every `X:\` path whose rest is free of the reserved characters |
| Utils.IsNumCases | lib/utils.js:23-25 | `isNum(v)` holds iff `v` is a number (NaN included), or a non-empty string whose `Number()` is not NaN |
| Utils.CoercedIsNum | lib/utils.js:23-25 | every value coerced by `-= 0` passes `isNum` |
| Rules.DashedInjective | index.js:174-176 | `add_` gives two different non-empty names two different spellings |
| Rules.DashedHelpFlags | index.js:174-176 | only the name `h` is spelled `-h`, and only `help` is spelled `--help` |
| Rules.ShortFlag | index.js:183-190 | `getChar` answers the one-character alias, else the one-character option, else `''`; never more than one character |
| Rules.ShortFlagIsTableKey | index.js:183-190 | `getChar` is non-empty iff the option files a key in the flag table, and then it is one of those keys |
| Rules.IndexOf | index.js:225 | `indexOf` answers -1 iff the item is absent; otherwise the position of its first occurrence |
| Rules.RemoveFirst | index.js:225-226 | the splice removes one occurrence of the item when present (same multiset less that item) and changes nothing otherwise |
| Rules.EnsureScope | index.js:202-207 | `getRule` adds a fresh scope only for an unknown name and leaves every existing scope as it was |
| Rules.AddBare | index.js:30-33 | a bare name appends a required positional with no format and seeds its field with `''`; nothing else changes |
| Rules.AddRuleEffect | index.js:208-237 | a nameless rule is ignored. A positional is appended, required unless it says `required: false`, and the rest of the scope is unchanged. An option is appended with `required: false` and its alias. A non-boolean option changes neither the skeleton nor the flag table. A boolean option starts out `false` |
| Rules.AddRuleFilesFlags | index.js:231-235 | a boolean option files its one-character option and alias under its name in the flag table; every other entry stays |
| Rules.RegisterRule | index.js:29-51 | one top-level rule adds a scope only for a `cmd` object with a non-empty `cmd` |
| Rules.RegisterAll | index.js:29-51 | the rule loop keeps the root scope and every scope already registered |
| Rules.RemoveFromHelpFlags | index.js:225-226 | removing a spelling from the default help list drops exactly the matching flag |
| Rules.WithdrawPrunes | index.js:224-230 | after an option is declared, the help list is the default list less exactly the flags some declared option spells |
| Rules.AddOptionPrunesHelp | index.js:224-230 | `addRule` keeps the help list equal to the default list less the claimed flags |
| Rules.AddOptionKeepsTable | index.js:231-235 | every flag-table entry still names a boolean option with that one-character spelling |
| Rules.AddOptionKeepsBools | index.js:231-235 | every boolean option keeps its one-character spellings in the table and its field in the skeleton |
| Rules.AddRuleKeepsSeeds | index.js:208-237 | `addRule` seeds no field other than a boolean option's `false`, so every skeleton field stays either `false` or the `''` of a positional of that name |
| Rules.AddRuleKeepsWellFormed | index.js:208-237 | `addRule` preserves the scope invariant `WellFormed`: the flag table, the help list and the seeded skeleton agree with the declared options and positionals |
| Rules.AddBareKeepsWellFormed | index.js:30-33 | a bare name preserves `WellFormed`, including the seed invariant |
| Rules.BoolStartsFalse | index.js:231-232 | in a well-formed scope, a boolean option that no positional shares a name with is seeded `false` |
| Rules.AddItemsKeepWellFormed | index.js:39-46 | filing a subcommand's own rules preserves `WellFormed` |
| Rules.RegisterRuleKeepsWellFormed | index.js:29-51 | one top-level rule keeps every scope of the registry well formed |
| Rules.RegisterAllKeepsWellFormed | index.js:29-51 | the whole rule loop keeps every scope well formed |
| Rules.RegistryWellFormed | index.js:21 | the registry has the root scope, and every scope in it is well formed under its own key |
| Rules.AddItemsKeepSkeleton | index.js:39-46 | filing rules never removes a field from a scope's result skeleton |
| Rules.RegisterAllKeepsSkeleton | index.js:29-51 | the rule loop never removes a registered scope or a field of its skeleton |
| Rules.BareSeeded | index.js:30-33 | every top-level bare name has a field in the root skeleton once registration ends |
| Rules.AddItemsSeedBare | index.js:40-42 | filing a subcommand's rules seeds every bare name among them |
| Rules.CommandBareSeeded | index.js:36-42 | once registration ends, a bare name in a subcommand's `rules` has a field in that subcommand's skeleton |
| Rules.RegistryKeys | index.js:36-37 | the registry holds exactly the root and the non-empty `cmd` names of the rule list |
| Scanner.FindOptionFirst | index.js:93 | option lookup finds the first declared option whose `add_(option)` or `add_(alias)` is the token, and finds nothing iff no option is spelled so |
| Scanner.ClassifyConsumesAll | index.js:85-113 | the loop accounts for every token exactly once and in order; an option's value token is the token right after it |
| Scanner.ClassifyFits | index.js:90-112 | help flags are skipped first. An option is tried before a cluster, and a cluster before a plain token. A cluster needs two or more table keys. A boolean option takes no value, and any other option takes the following token, whatever it is |
| Scanner.Store | index.js:114-125 | only the spec's own field changes. One warning, with the option's spelling and the new item, is added exactly when an option overwrites a truthy value |
| Scanner.SetFlags | index.js:106-108 | a cluster sets to `true` each field the flag table names for a character after the dash, and leaves every other field unchanged |
| Scanner.RunKeepsFields | index.js:85-126 | the loop never removes a field: the whole skeleton is still present at the end |
| Scanner.RunPositionals | index.js:110-111 | `$params` receives exactly the plain tokens, in order; each plain token uses up one pending positional, in declaration order, while any remain |
| Scanner.UnwrittenKept | index.js:114-125 | a field that no step writes and no pending positional names keeps its value, or stays absent |
| Scanner.LastOptionWins | index.js:114-125 | after an option hit, its field holds what that hit stored (coerced for `num`) as long as no later step writes it |
| Scanner.ClusterSetsFlags | index.js:103-108 | a cluster leaves `true` each field the flag table names for one of its characters, unless a later step writes that field, and adds nothing to `$params` |
| Scanner.PlainFillsPositional | index.js:110-111 | the k-th plain token fills the k-th declared positional (coerced for `num`) and is appended to `$params` |
| Scanner.WarningsFromOptions | index.js:115-120 | every replacement warning comes from an option hit and carries that option's spelling |
| Validation.FormatVerdict | index.js:138 | no format and `bool` are never checked; only `path`, `dir` and `file` can throw, `path` only on a non-string. `path` uses `isPath` as written |
| Validation.DrivePathFieldRejected | index.js:138 | on win32, a `path` field holding `C:\Users` fails its format check, as the written drive-letter pattern dictates |
| Validation.CoercedNumAccepted | index.js:138 | a coerced `num` field always passes its format check |
| Validation.CheckField | index.js:130-168 | an absent field fails iff it is required, and then as missing. A present field passes iff the format, the `test` and the `values` lookup all accept it. The checks run in source order |
| Validation.FirstFailureNone | index.js:127-169 | the pass completes iff every positional and option passes every check |
| Validation.FirstFailureIsFirst | index.js:127-169 | a failure names the first failing spec, positionals first, and the first check it fails; every spec before it passed |
| Commander.Resolve | index.js:53-64 | a registered first token selects its scope and is dropped. Otherwise the root is active and the tokens are unchanged. With no token the lookup key is `undefined` |
| Commander.HelpIff | index.js:71-82 | help is requested iff no arguments are left and some positional is required, or the only argument is `-h`/`--help` and no boolean option is named `h` or `help`. Aliases are not consulted |
| Commander.FinishOk | index.js:83-172 | a completed run has `$params` equal to the plain tokens, keeps every skeleton field, and every spec passed every check |
| Commander.FinishFail | index.js:127-169 | a failed run names the first failing spec of the active scope and the check it failed |
| Commander.ParseHelp | index.js:71-82 | a call ends with the usage screen iff the help condition holds for the resolved scope, and then prints no warning |
| Commander.FinishActive | index.js:83-172 | an accepted run over a well-formed scope reports its key as `$cmd`, has a field for each boolean option, and leaves `false` each boolean option no token wrote and no positional shares |
| Commander.ParseOk | index.js:238-240 | a completed call reports the resolved scope as `$cmd`: the first token if it names a scope, else `$`. Every boolean option of that scope is present in the result, and is `false` when no token wrote it and no positional has its name |
| Commander.SeededNeverMissing | index.js:131 | a field seeded in the active scope's skeleton never fails the required check |
| Commander.BareNeverMissing | index.js:30-33 | a top-level bare name never fails the required check when the root scope is active |
| Commander.CommandBareNeverMissing | index.js:40-42 | a bare name in a subcommand's `rules` never fails the required check when that subcommand is active |
| Commander.Commander.constructor | index.js:21-27 | the closure starts with a registry holding only the root scope and the default help flags |
| Commander.Commander.GetRule | index.js:202-207 | the registry becomes `EnsureScope` of the old one |
| Commander.Commander.AddBare | index.js:30-33 | the scope under `key` becomes `Rules.AddBare` of itself; no other scope changes |
| Commander.Commander.FileOption | index.js:224-236 | the option branch of `addRule` computes `Rules.AddRule` |
| Commander.Commander.AddRule | index.js:208-237 | the scope under `key` becomes `Rules.AddRule` of itself; no other scope changes |
| Commander.Commander.AddItems | index.js:39-46 | the loop over a subcommand's rules leaves its scope equal to `Rules.AddItems` |
| Commander.Commander.Register | index.js:29-51 | the rule loop leaves the registry equal to `RegisterAll` of the initial one |
| Commander.Commander.FileCommand | index.js:34-49 | one `cmd` object updates the registry as `RegisterRule` says |
| Commander.Commander.SetRule | index.js:238-246 | the active-scope variables hold exactly the scope under `key` |
| Commander.Commander.ResolveCommand | index.js:53-64 | the active scope and the remaining tokens are those `Resolve` picks; the registry and the flag-table state are untouched |
| Commander.Commander.BuildGroupPattern | index.js:66-69 | the cluster pattern exists iff the flag table has two or more keys |
| Commander.Commander.SetGroupFlags | index.js:106-108 | the loop over a cluster's characters leaves the result equal to `SetFlags` |
| Commander.Commander.StoreField | index.js:114-125 | the field assignment, coercion and warning agree with `Scanner.Store` |
| Commander.Commander.ScanToken | index.js:86-125 | one iteration reads one or two tokens, takes the step `Classify` prescribes, and applies that step's effect |
| Commander.Commander.Scan | index.js:83-126 | the token loop leaves the result, `$params` and the warnings equal to `Scanner.Scan` |
| Commander.Commander.Validate | index.js:127-169 | the `forEach` with early exits answers `FirstFailure` over positionals then options |
| Commander.Parse | index.js:19-172 | one call of `__commander` answers exactly `ParseSpec`, so it inherits every lemma above |

## Left out

- Help and usage rendering (`showHelp`, `showUsage`, `splitLine`, `hl`) is modelled only as the `Help` outcome. It is console layout and depends on helpers that are not part of this model.
- Colours (lib/CSI.js and `MSG`) and all console text are not modelled. This includes `msg` in the error lines. Warnings keep only the option and the value.
- `process.argv` is a parameter, and `process.exit` is the `Outcome`. `result.$showHelp` is not modelled.
- `URL.canParse`, `Number()`, the number-to-string conversion, `fs.statSync` and the user `test` validators (function or RegExp) are total functions in `Host`. `lastIndex` state in a user RegExp is not modelled.
- `isDirectory`/`isFile` with `link = true` (`lstatSync`) is not modelled: the engine never passes it.
- `reg_o` and the cluster pattern are modelled as string equality and set membership. An option name holding regular-expression metacharacters would behave differently in the original.
- Plain-object quirks are not modelled. Tables are Dafny maps, so lookups such as `ruleHash['constructor']` or `values['toString']` find nothing. `$cmd` and `$params` are kept apart from the fields, so a rule named `$cmd` cannot collide with them.
- A format tag outside the six known ones (the original throws on lookup) is not modelled: `Format` has no such value.
- Rule values of the wrong JavaScript type are not modelled, and neither is a `cmd` object that also carries a `name`. `Decl.required` is an optional boolean, so a falsy non-boolean `required` such as `0` is not modelled.
- The one-argument call `__commander(rules)` is the call with description `''`.
- Strings are sequences of characters. JavaScript's UTF-16 code units (which `option.length == 1` counts) are not distinguished from characters.
- A `Fail(Threw, _)` outcome is not a validation error: the original lets the exception escape, with Node's own message and exit status, which are not modelled.
- `Rules.ShortFlag` (`getChar`) is used in the original only by the usage rendering, which is left out. It is kept because it is one of the named helpers, and `Rules.ShortFlagIsTableKey` ties it to the flag table the parser does use.
- `Utils.Match` has a ghost call count. It shows that `f` is called on a prefix only; `f` has no side effects in the model.

## Findings

| source | as written | input that shows it | evidently intended | confidence | as-written member | corrected member |
|---|---|---|---|---|---|---|
| lib/utils.js:14 | the unescaped `[` inside the drive-letter class lets the first `]` close the class. The pattern then needs exactly one character after `X:\`, the literal text `{}` TAB CR LF, and a run of `]` | on win32, `isPath("C:\\Users")` is false, while `isPath("C:\\x{}\t\r\n]")` is true | `X:\` followed by a run free of `,:;/*?\|!'"<>[]{}` and TAB, CR, LF | not executed | Utils.DrivePathRejectedAsWritten | Utils.DrivePathAccepted |
