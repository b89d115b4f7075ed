# node-keychain, modelled in Dafny

node-keychain gives Node programs one interface to the platform's password
store: `getPassword`, `setPassword` and `deletePassword` on a
`KeychainAccess` object. On macOS each call runs `/usr/bin/security`. On
Linux each call runs a small Python helper, `gkeyring.py`, under
`/usr/bin/python`. The helper reads its options, talks to the GNOME
keyring and prints what it found. Each facade checks its options, builds a
fixed argument vector, runs the child process and maps its exit status and
output to a callback.

The model has four modules:

- `Text` (text.dfy): splitting on one separator and joining, as Python's
  `str.split(sep)` does. It also has decimal printing of integers and
  Python 2's `int()` of a string.
- `GKeyring` (gkeyring.dfy): the helper's `CLI` class. This covers the
  `-p`/`-i` parameter loops, the normalisation of options, the column
  formatter of `query` and the exit status of `execute`. It is a `class`
  whose methods update the same fields as the script and append to a
  `stdout` buffer. Each method is proved equal to a pure function:
  `ParseParams`, `ParseConfig`, `Render` or `HelperRun`. The lemmas state
  the script's promises about those functions.
- `Keychain` (keychain.dfy): the macOS facade. It also holds the pieces
  both facades share: the option checks, exit statuses, output chunks and
  the exit-status reactions. The `security` tool is stood in for by the
  function `Security` over an abstract store
  `map<(account, service), password>`:
  - a lookup writes the password and a newline, or exits 44 when the item
    is absent;
  - an add exits 45 when the item exists;
  - a delete exits 44 when the item is absent.

  `MacKeychain` is a class holding that store and the log of started
  processes. Its methods follow the JavaScript, including the
  delete-and-retry after code 45. Each method is proved equal to the
  functions `MacGet`, `MacSet` and `MacDelete`. The retry terminates
  because the delete removed the key, so the second add cannot exit 45.
- `Linux` (linux.dfy): the Linux facade. Each run of the helper is an
  input (`Child`: exit status and output chunks). The lemmas connect
  these inputs to the `GKeyring` model:
  - when neither name holds `,`, the encoded key
    `user=<account>,key=<service>` reads back as exactly those two
    parameters;
  - when neither name holds `,`, nothing arrives on standard error and
    exactly one item matches, a lookup's secret reaches the caller
    unchanged. With several matches the caller gets the secrets joined
    by newlines; they can arise because the helper's `--set` calls
    `item_create_sync` with a last argument of `False`
    (gkeyring.py:275-276);
  - for a single match with a non-zero id, the id printed by
    `--output=id` is the id the delete receives. With several matches
    the printed text holds one id per line; `int()` refuses it, the
    helper exits 2, and `deletePassword` fails with "Could not find
    password".

The macOS facade removes the first newline of what `security` printed.
Against the stand-in, which writes the password verbatim and then a
newline, a stored password therefore comes back unchanged exactly when no
character other than a newline follows a newline in it
(`StripAppendedNewline`). A password like `"a\nb"` comes back as `"ab\n"`
(`InnerNewlineMangled`).

## Model

| member | source | states |
|---|---|---|
| Text.Split | platforms/gkeyring.py:144 | `str.split(sep)` always yields at least one piece |
| Text.SplitPieces | platforms/gkeyring.py:144 | no piece holds the separator, and joining the pieces gives the string back |
| Text.SplitJoin | platforms/gkeyring.py:144 | splitting a join of separator-free parts gives the parts back |
| Text.SplitAround | platforms/gkeyring.py:144 | splitting `x + sep + y` is splitting `x` followed by splitting `y` |
| Text.IntToStringChars | platforms/gkeyring.py:261 | a printed integer holds only `-` and digits, so never `,`, `=`, tab or newline |
| Text.DigitsValueOfDigits | platforms/gkeyring.py:261 | the decimal digits of `n` have the value `n` |
| Text.IntToString | platforms/gkeyring.py:261 | Python's `str()` of an integer, also JavaScript's `'' + code` through `CodeText` (stated by `IntToStringChars`, `DigitsValueOfDigits` and `ParseIntOfIntToString`) |
| Text.ParseInt | platforms/gkeyring.py:163 | Python 2's `int()` of a string: optional white space around an optional sign and decimal digits, None where it raises `ValueError` (stated by `ParseIntOfIntToString` and `CodeTextReadsBack`) |
| Text.ParseIntOfIntToString | platforms/gkeyring.py:163 | Python's `int()` reads a printed integer back, with any trailing white space |
| Text.ParseIntRefusesTwoLines | platforms/gkeyring.py:163 | Python's `int()` refuses a printed integer followed by a line break and more text that does not start with white space |
| GKeyring.SplitAtFirst | platforms/gkeyring.py:149 | `split('=', 1)`: None exactly when `=` is missing; otherwise name and value around the first `=`, the name free of `=` |
| GKeyring.SplitAtFirstOf | platforms/gkeyring.py:149 | a name without `=`, then `=`, then any value splits back into that name and value |
| GKeyring.ParseTokensAppend | platforms/gkeyring.py:145-150 | parsing two token lists in a row is parsing each and concatenating, failing if either fails |
| GKeyring.ParseTokensAccepts | platforms/gkeyring.py:145-153 | a token list parses exactly when every non-empty token does |
| GKeyring.TokenAccepted | platforms/gkeyring.py:149-153 | a non-empty string token parses exactly when it holds `=` |
| GKeyring.EmptyTokensSkipped | platforms/gkeyring.py:144-148 | `""`, a leading `,`, a trailing `,` and `,,` add nothing to the parameters |
| GKeyring.ValueMayHoldEquals | platforms/gkeyring.py:149-150 | `name=a=b` gives the name `name` the value `a=b` |
| GKeyring.ParamsRoundTrip | platforms/gkeyring.py:144-164 | writing writable parameters as `NAME=VALUE,...` and parsing gives them back in order |
| GKeyring.ParsedValuesCommaFree | platforms/gkeyring.py:144-150 | no parsed value holds `,` |
| GKeyring.ToMapKeys | platforms/gkeyring.py:143-164 | the dictionary's keys are the parsed names |
| GKeyring.ToMapLastWins | platforms/gkeyring.py:143-164 | a repeated name keeps its last value |
| GKeyring.ToMapEntry | platforms/gkeyring.py:143-164 | every entry of the dictionary is one of the parsed parameters |
| GKeyring.ToMapAppend | platforms/gkeyring.py:143-164 | inserting `-p` then `-i` entries is the union with `-i` winning |
| GKeyring.ConfigOfAccepted | platforms/gkeyring.py:138-190 | when every check passes, `parse_args` succeeds with exactly these fields |
| GKeyring.MissingParamsRule | platforms/gkeyring.py:138-140 | without `-p` and `-i` a run is refused exactly when `--set` is given or no (non-zero) `--id` |
| GKeyring.OutputColumns | platforms/gkeyring.py:174-190 | `-1` forces the columns `["secret"]` and no final newline; otherwise the columns are `--output` split on `,` |
| GKeyring.IntParamsOverride | platforms/gkeyring.py:143-164 | the dictionary is the `-p` map overridden by the `-i` map |
| GKeyring.SetNeedsName | platforms/gkeyring.py:178-183 | `--set` is accepted exactly with a name, and takes the prompted password when none was given |
| GKeyring.KeywordsShadowProperties | platforms/gkeyring.py:250-258 | `id`, `secret` and `name` win over properties of the same name |
| GKeyring.SilentCells | platforms/gkeyring.py:257-261 | an unknown column or a falsy value gives an empty cell |
| GKeyring.RowReadsBack | platforms/gkeyring.py:246-261 | a row splits back on tabs into its cells, one per column |
| GKeyring.RenderReadsBack | platforms/gkeyring.py:239-264 | reading the output back gives one line per result and one field per column |
| GKeyring.SecretOnlyOutput | platforms/gkeyring.py:242-264 | with `-1` the output is the secrets joined by newlines, exactly the secret for one match |
| GKeyring.IdOutputReadsBack | platforms/gkeyring.py:242-264 | `--output=id` with one match of non-zero id writes that id and a newline, which `int()` reads back |
| GKeyring.SeveralIdsUnreadable | platforms/gkeyring.py:242-264 | `--output=id` with two or more matches whose first two ids are non-zero writes text that `int()` refuses |
| GKeyring.ExitCode | platforms/gkeyring.py:197-207 | 2 exactly on a usage error, 0 exactly on success, 5 exactly on failure |
| GKeyring.HelperRunStatus | platforms/gkeyring.py:194-240 | a run exits 0, 2 or 5, 2 exactly on a usage error; a query that finds nothing writes nothing and exits 5 |
| GKeyring.ParseToken | platforms/gkeyring.py:149-164 | one non-empty token: name and value around the first `=`, the value through `int()` for `-i`; None where the script raises `ValueError` (its meaning is stated by `TokenAccepted` and `ValueMayHoldEquals`) |
| GKeyring.ParseTokens | platforms/gkeyring.py:145-164 | the token loop: empty tokens skipped, any failing token fails the whole list (stated by `ParseTokensAccepts`, `ParseTokensAppend` and `EmptyTokensSkipped`) |
| GKeyring.ParseParams | platforms/gkeyring.py:143-167 | the value of `-p` or `-i` split on `,` and read by the token loop (stated by `ParamsRoundTrip` and `ParsedValuesCommaFree`) |
| GKeyring.ToMap | platforms/gkeyring.py:143-164 | the dictionary `self.params` filled by the loops, one insertion per parameter (stated by `ToMapKeys`, `ToMapLastWins`, `ToMapEntry` and `ToMapAppend`) |
| GKeyring.Normalised | platforms/gkeyring.py:169-183 | the options after `-1` and `--set` have been applied (stated by `OutputColumns` and `SetNeedsName`) |
| GKeyring.ParseConfig | platforms/gkeyring.py:138-192 | `parse_args`: a usage error or the fields the script keeps (stated by `ConfigOfAccepted`, `MissingParamsRule`, `IntParamsOverride`; computed by `CLI.ParseArgs`) |
| GKeyring.Lookup | platforms/gkeyring.py:250-258 | the value a column names in one result (stated by `KeywordsShadowProperties`) |
| GKeyring.Cell | platforms/gkeyring.py:257-261 | what one column writes (stated by `SilentCells`; computed by `CLI.WriteCell`) |
| GKeyring.ValueText | platforms/gkeyring.py:261 | Python's `str()` of a parameter or property value (stated by `ParsedValuesCommaFree` and `IdOutputReadsBack`) |
| GKeyring.Cells | platforms/gkeyring.py:246-261 | the cells of one result, one per column (stated by `RowReadsBack`) |
| GKeyring.Row | platforms/gkeyring.py:246-261 | one result's line: the cells with a tab between neighbours (stated by `RowReadsBack`; computed by `CLI.WriteRow`) |
| GKeyring.Rows | platforms/gkeyring.py:242-261 | the lines of all results (stated by `RenderReadsBack`; computed by `CLI.WriteRows`) |
| GKeyring.Render | platforms/gkeyring.py:239-264 | what `query` writes for its results (stated by `RenderReadsBack` against the reader `ReadTable`, `SecretOnlyOutput` and `IdOutputReadsBack`; computed by `CLI.Query`) |
| GKeyring.HelperRun | platforms/gkeyring.py:194-297 | exit status and standard output of one run of the script (stated by `HelperRunStatus`; computed by `CLI.Execute` and `RunHelper`) |
| GKeyring.CLI.AddParams | platforms/gkeyring.py:143-167 | the loop adds the parsed parameters to `params` in order, and fails exactly when the string does not parse |
| GKeyring.CLI.ReadParams | platforms/gkeyring.py:142-167 | `-p` then `-i`: succeeds exactly when both parse, leaving the union in `params` |
| GKeyring.CLI.ApplyOptions | platforms/gkeyring.py:169-190 | rewrites `options` as `Normalised`, and fails exactly on `--set` without a name |
| GKeyring.CLI.CopyOptions | platforms/gkeyring.py:185-190 | copies the options into the instance fields, splitting `output` on `,` |
| GKeyring.CLI.ParseArgs | platforms/gkeyring.py:138-192 | succeeds exactly when `ParseConfig` does, leaving its fields in the object |
| GKeyring.CLI.WriteCell | platforms/gkeyring.py:247-261 | appends a tab unless the column is the first, then the column's cell: its value as text, or nothing for a missing or falsy value |
| GKeyring.CLI.WriteRow | platforms/gkeyring.py:246-261 | appends the row: the cells with one tab between neighbours |
| GKeyring.CLI.WriteRows | platforms/gkeyring.py:242-261 | appends the rows with one newline between neighbours |
| GKeyring.CLI.Query | platforms/gkeyring.py:239-266 | returns whether anything matched, and appends `Render` of the matches |
| GKeyring.CLI.Execute | platforms/gkeyring.py:194-297 | the exit status and the output are those of `HelperRun` |
| GKeyring.RunHelper | platforms/gkeyring.py:311-318 | one fresh script run yields `HelperRun`'s status and output |
| Keychain.Validate | keychain.js:79-95 | the account is checked first, then the service, then (for set) the password, each with its own message; None exactly when all pass |
| Keychain.MessagesDistinct | keychain.js:36-95 | the messages of the three checks and "not found" are all different, so a caller can tell the failures apart |
| Keychain.CodeTextReadsBack | keychain.js:102 | the code written into the message reads back as the exit code, and a signal's `null` reads as no number |
| Keychain.CapturedAppend | keychain.js:49-53 | for chunks of decoded text, the captured text does not depend on how the output was cut into chunks |
| Keychain.StderrIgnored | keychain.js:51-53 | text on standard error is kept only by a listener on both streams |
| Keychain.Collect | keychain.js:49-53 | the `data` loop builds exactly the captured text |
| Keychain.StripRemovesFirst | keychain.js:62 | `replace('\n', '')` removes the first newline and keeps everything else |
| Keychain.StripAppendedNewline | keychain.js:62 | a password followed by the newline `security` prints comes back exactly when no other character follows a newline in it |
| Keychain.InnerNewlineMangled | keychain.js:62 | the witness for the "only if" half of `StripAppendedNewline`: against the stand-in a newline inside a password moves, `"a\nb"` coming back as `"ab\n"` |
| Keychain.FindReaction | keychain.js:55-63 | fails with "Could not find password" exactly on a status other than 0; otherwise gives the output without its first newline |
| Keychain.AddReaction | keychain.js:100-122 | success exactly on 0, delete-and-retry exactly on 45, otherwise an error naming the status |
| Keychain.AddFailureNamesCode | keychain.js:102-116 | a failed add's message is the fixed prefix followed by the exit code |
| Keychain.DeleteReaction | keychain.js:152-159 | success exactly on 0, otherwise "Could not find password" |
| Keychain.SecurityFind | keychain.js:48 | the lookup writes the stored password and a newline, or exits 44 |
| Keychain.SecurityAdd | keychain.js:97 | the add exits 45 on an existing key, otherwise stores the password |
| Keychain.SecurityDelete | keychain.js:150 | the delete removes an existing key, otherwise exits 44 |
| Keychain.RejectedWithoutSpawn | keychain.js:36-148 | a rejected call reports its check's message, starts no process and leaves the store alone |
| Keychain.MacArgv | keychain.js:20-150 | each call runs `/usr/bin/security` with its fixed argument vector |
| Keychain.KindIgnored | keychain.js:48-150 | the `type` option changes nothing |
| Keychain.SetStores | keychain.js:97-122 | a valid set succeeds and maps the key to the password; it runs `add` for a new key and `add`, `delete`, `add` for an existing one |
| Keychain.SetTwice | keychain.js:104-114 | setting twice in a row succeeds both times and leaves the same store |
| Keychain.SetThenGet | keychain.js:48-97 | against the stand-in, a lookup after a set gives back a password that holds no newline |
| Keychain.DeleteTwice | keychain.js:150-159 | a delete succeeds exactly when the key is stored and removes it; a second delete fails |
| Keychain.GetAbsent | keychain.js:48-60 | a lookup of a key never stored fails with "Could not find password" |
| Keychain.TestSequence | test/keychain.test.js:44-182 | set, set, get, delete, delete on one key: all succeed but the last, and the get yields the password |
| Keychain.CodeText | keychain.js:102 | the exit code as JavaScript's `'' + code` writes it, `null` for a signal (stated by `CodeTextReadsBack`) |
| Keychain.Captured | keychain.js:49-53 | the text the `data` listeners accumulate (stated by `CapturedAppend` and `StderrIgnored`; computed by `Collect`) |
| Keychain.StripFirstNewline | keychain.js:62 | `replace('\n', '')` (stated by `StripRemovesFirst` and `StripAppendedNewline`) |
| Keychain.FindArgv | keychain.js:48 | the lookup's argument vector (stated by `MacArgv`) |
| Keychain.AddArgv | keychain.js:97 | the add's argument vector (stated by `MacArgv`) |
| Keychain.DeleteArgv | keychain.js:150 | the delete's argument vector (stated by `MacArgv`) |
| Keychain.Security | keychain.js:48-150 | the stand-in for `security` on those vectors (stated by `SecurityFind`, `SecurityAdd` and `SecurityDelete`) |
| Keychain.MacGet | keychain.js:32-65 | `getPassword`: result and started processes (stated by `RejectedWithoutSpawn`, `SetThenGet` and `GetAbsent`; computed by `MacKeychain.GetPassword`) |
| Keychain.MacDelete | keychain.js:134-160 | `deletePassword`: result, store after and started processes (stated by `DeleteTwice`; computed by `MacKeychain.DeletePassword`) |
| Keychain.MacSet | keychain.js:75-124 | `setPassword` with its retry after 45: result, store after and started processes (stated by `SetStores` and `SetTwice`; computed by `MacKeychain.SetPassword`) |
| Keychain.MacKeychain.Spawn | keychain.js:48-150 | a run of `security` updates the store as `Security` says and is logged |
| Keychain.MacKeychain.GetPassword | keychain.js:32-65 | result, store and log are those of `MacGet` |
| Keychain.MacKeychain.DeletePassword | keychain.js:134-160 | result, store and log are those of `MacDelete` |
| Keychain.MacKeychain.SetPassword | keychain.js:75-124 | result, store and log are those of `MacSet`, including the retry after 45 |
| Linux.LinuxRejectedWithoutSpawn | platforms/linux.js:52-212 | the checks and messages are those of the macOS facade, and a rejected call starts no process |
| Linux.LinuxArgv | platforms/linux.js:21-218 | each call runs `/usr/bin/python` on the script with its fixed argument vector |
| Linux.LinuxGetVerbatim | platforms/linux.js:65-87 | for any chunks, on exit 0 the password is everything captured from standard output and standard error, verbatim, a trailing newline included; any other status is "not found" |
| Linux.GetIdIgnoresStderr | platforms/linux.js:107-117 | the id lookup ignores standard error |
| Linux.DeleteAlwaysSpawns | platforms/linux.js:214-228 | a valid delete runs the id lookup and then `--delete --id=<id>`, with `--id=null` after a failed lookup; only the delete's status decides |
| Linux.HelperNeverRetries | platforms/linux.js:163-186 | with a status the helper can produce, a set runs one process, succeeding exactly on 0, otherwise with the code in the message |
| Linux.DuplicateRetries | platforms/linux.js:167-177 | on 45 the delete runs; its error is reported, otherwise the set is retried |
| Linux.KeyReadsBack | platforms/gkeyring.py:143-153 | the key `user=<account>,key=<service>` of the Linux facade, without commas, parses to the parameters `user` and `key`, in that order |
| Linux.KeyValuesCommaFree | platforms/gkeyring.py:143-153 | whenever the key parses, no parsed value holds `,`: the half of `KeyDecodes` that rules out commas in the names |
| Linux.KeyDecodes | platforms/gkeyring.py:143-153 | the key reads back as exactly `{user: account, key: service}` if and only if neither holds `,` |
| Linux.KeyConfig | platforms/gkeyring.py:138-190 | when neither name holds `,`, the helper accepts the options of a lookup, with the parameters `{user, key}` |
| Linux.SecretLookupOutput | platforms/gkeyring.py:174-264 | when neither name holds `,`, a lookup with at least one match exits 0 and writes the secrets joined by newlines, with no final newline |
| Linux.HelperSecretReachesCaller | platforms/linux.js:64-87 | when neither name holds `,`, a lookup with matches exits 0, and the caller gets the helper's standard output followed by whatever came on standard error. With nothing on standard error that is the secrets joined by newlines, and for one match exactly the secret |
| Linux.IdLookupOutput | platforms/gkeyring.py:239-266 | the id lookup of an encoded key with one match of non-zero id exits 0 and writes the id and a newline |
| Linux.DeleteReceivesId | platforms/gkeyring.py:285-297 | `--delete --id=<id>` with a printed non-zero id and its newline is accepted, and exits 0 exactly when the keyring deleted the item |
| Linux.NullIdRefused | platforms/linux.js:216-218 | after a failed lookup the helper receives `--id=null`, which is not an id |
| Linux.IdFeedsDelete | platforms/linux.js:106-218 | for a single match with a non-zero id and comma-free names, the id the lookup printed is the id the delete receives |
| Linux.SeveralIdsRefused | platforms/linux.js:197-218 | with two or more matches whose first two ids are non-zero, the lookup exits 0 but the id text it hands over is not an integer, so the delete's option parser refuses it and a delete that exits 2 is reported as not found |
| Linux.EncodeKey | platforms/linux.js:64 | the key `user=<account>,key=<service>` (stated by `KeyReadsBack` and `KeyDecodes`) |
| Linux.HelperGetArgv | platforms/linux.js:64 | the lookup's argument vector (stated by `LinuxArgv`) |
| Linux.HelperIdArgv | platforms/linux.js:106 | the id lookup's argument vector (stated by `LinuxArgv`) |
| Linux.HelperSetArgv | platforms/linux.js:160 | the set's argument vector (stated by `LinuxArgv`) |
| Linux.HelperDeleteArgv | platforms/linux.js:218 | the delete's argument vector, `--id=` followed by the lookup's text (stated by `DeleteAlwaysSpawns`) |
| Linux.LinuxGet | platforms/linux.js:48-88 | `getPassword`: result and started processes (stated by `LinuxGetVerbatim` and `HelperSecretReachesCaller`; computed by `LinuxKeychain.GetPassword`) |
| Linux.LinuxGetId | platforms/linux.js:90-128 | `getID`: result and started processes (stated by `GetIdIgnoresStderr`; computed by `LinuxKeychain.GetID`) |
| Linux.IdText | platforms/linux.js:216-218 | the text `'--id=' + id` receives, `null` after a failed lookup (stated by `NullIdRefused`) |
| Linux.LinuxDelete | platforms/linux.js:197-229 | `deletePassword`: the id lookup, then the delete (stated by `DeleteAlwaysSpawns`; computed by `LinuxKeychain.DeletePassword`) |
| Linux.LinuxSet | platforms/linux.js:138-187 | `setPassword` with its retry after 45 (stated by `HelperNeverRetries` and `DuplicateRetries`; computed by `LinuxKeychain.SetPassword`) |
| Linux.LinuxReplace | platforms/linux.js:167-177 | the 45 branch: delete, then set again unless the delete failed (stated by `DuplicateRetries`; computed by `LinuxKeychain.ReplaceExisting`) |
| Linux.GetOptions | platforms/linux.js:64 | the options optparse gives the helper for the lookup's vector (stated by `KeyConfig` and `HelperSecretReachesCaller`) |
| Linux.IdOptions | platforms/linux.js:106 | the options optparse gives the helper for the id lookup's vector (stated by `IdLookupOutput`) |
| Linux.DeleteOptions | platforms/linux.js:218 | the options optparse gives the helper for `--delete --id=<text>`, None when the text is not an integer (stated by `DeleteReceivesId` and `NullIdRefused`) |
| Linux.LinuxKeychain.Spawn | platforms/linux.js:64-218 | a run of the helper returns the given child's status and output and is logged as `/usr/bin/python` with its argument vector |
| Linux.LinuxKeychain.GetPassword | platforms/linux.js:48-88 | result and log are those of `LinuxGet` |
| Linux.LinuxKeychain.GetID | platforms/linux.js:90-128 | result and log are those of `LinuxGetId` |
| Linux.LinuxKeychain.DeletePassword | platforms/linux.js:197-229 | result and log are those of `LinuxDelete` |
| Linux.LinuxKeychain.SetPassword | platforms/linux.js:138-187 | result and log are those of `LinuxSet` |
| Linux.LinuxKeychain.ReplaceExisting | platforms/linux.js:167-177 | result and log are those of `LinuxReplace` |

## Left out

- platforms/windows.cc and platforms/windows.js are not part of this model. The first is native Credential Manager calls with C buffers; the second is a stub whose `isSupported` is always false.
- Process spawning, the `data` and `exit` events and their ordering are left out. A child's exit status and output are inputs. On macOS they come from the `Security` stand-in over an abstract store; on Linux they are the `Child` values.
- Callbacks are left out. Each operation returns its result, so a callback called exactly once per path becomes one return value per path. Asynchronous scheduling becomes sequential calls.
- `console.log` of a failed delete during a set (keychain.js:107; platforms/linux.js:170) is left out: it is console output only.
- `isSupported` (platforms/linux.js:31-38) is left out: it is a file system check.
- The GNOME keyring library is not modelled:
  - `gk.is_available`, the `gtk` import and `gk.get_default_keyring_sync` (gkeyring.py:132-136, 172) are left out;
  - the default keyring is None in the model;
  - the items a query finds, a created item's id and whether a delete went through are the `Keyring` input;
  - messages written to standard error are left out.
- The password prompt `getpass` (gkeyring.py:183) is the `prompted` parameter.
- The optparse library is left out, together with `MyOptionParser` and help formatting. `Options` holds what optparse would deliver. The Linux lemmas build it by hand for each argument vector (`GetOptions`, `IdOptions`, `DeleteOptions`).
- optparse reads an `int` option with an octal, hex or binary prefix (`0…`, `0x…`, `0b…`). This is left out. `DeleteOptions` reads `--id` with decimal `int()` only, which agrees on every integer the helper itself prints.
- The item type's mapping to the library's constants (`CLI.ITEM_TYPES`, gkeyring.py:188) is left out: `ItemType` is kept as given.
- The `KeyboardInterrupt` path of `main` (gkeyring.py:316-318) is left out: it is an asynchronous signal. Its exit status 1 is kept among `HelperExitCodes`. Python also exits 1 on any other uncaught exception, for example `--delete` without `--id`, which passes `None` to `item_delete_sync` (gkeyring.py:292). Those runs are left out too: `HelperRun` has only the exits 0, 2 and 5, and `HelperExitCodes` covers the status 1 they would give.
- The fresh `KeychainAccess` object Linux `deletePassword` makes for `getID` (platforms/linux.js:214) is left out. The model calls `GetID` on the same object. Both run `/usr/bin/python`, so the commands are the same and all are kept in one log.
- The real exit statuses of `security` other than 0 and 45 are not modelled. The stand-in's 44 and 1 are placeholders for any other non-zero status: the facade tells apart only 0 (`code !== 0`), 45 (`code == 45`) and the rest.
- The stand-in prints a password verbatim and then a newline. `security` may print a secret in hexadecimal (`0x…`) instead; that form is not modelled, so `SetThenGet`, `StripAppendedNewline` and `InnerNewlineMangled` hold against the stand-in only.
- Output chunks are modelled as already-decoded text. The JavaScript decodes each `data` Buffer on its own with `d.toString()` (keychain.js:52; platforms/linux.js:69, 75, 110), so a UTF-8 character split across two events becomes U+FFFD there. The model does not capture that; `CapturedAppend` holds for decoded text only.
- Linux.LinuxKeychain.SetPassword: requires that the helper's runs cover every retry (`Scripted`). The JavaScript has no such bound: it waits for each child as it comes.
