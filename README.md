# TacitDynDns in Dafny

TacitDynDns is a dynamic-DNS updater that runs once and then exits. It reads a
config file, which holds any number of `environment` and `update` blocks; the
`environment` blocks are applied in order. It then loads the last confirmed address of each block from a state
file and works out the machine's IPv4 and IPv6 addresses. An address comes
from a `-o` override on the command line, or else from fetching the
`ifconfig.co` echo service. For each family it then runs curl against every
update block of that family that needs an update. The last confirmed address
of a block changes when the update command exits with 0 and the first line
of its reply contains `good` or `nochg`. Finally the
addresses are written back to the state file. Writes to the log file depend
on the verbosity level. In Concise mode the log gets one summary character
per run, and a `Runs: ` prefix on the first run of a day.

The model is split into these modules:

- `Text` covers the string operations the program relies on:
  - counting a character;
  - `FindString`;
  - replacing `@` by `%40`;
  - the cut that replacing CR/LF by NUL makes in a C string.
- `Config` holds the entities (update block, environment, verbosity) and how
  the key/value entries of a config block set them.
- `Process` holds what running an external command gives back: an exit code
  and the output text.
- `Logging` holds:
  - log entries as abstract values, with the verbosity filter in front of the
    log file;
  - the run-summary character, both as written and corrected;
  - the new-day test.
- `Resolver` models override selection and address resolution.
- `ProtocolClient` models the pure parts of `RunCurl`:
  - the escaped credentials;
  - the command line;
  - the reply classification.
- `State` treats the state file as a sequence of entries. It models what
  loading one does and which entries saving writes.
- `Restart` puts two runs one after the other, each a new process that reads
  the config file again and loads the state file the previous run saved.
- `Engine` states the whole run of `UpdateAllServices` on values:
  - which blocks each family's phase attempts;
  - which blocks end up with the new address;
  - what each phase logs;
  - the properties that follow (isolation, validity gating, force/always,
    idempotence, Concise output).
- `DynDns` holds the class `Updater`. Its fields are the program's global
  state: the environment, the block list, `LogNewDay` and the log written so
  far. A ghost field `calls` records, for each update command run, the
  position of its block. Its methods are the source's loops, and each one is proved equal to
  the `Engine`, `Config` or `State` function that specifies it.

Outside inputs become parameters:

- the config file's blocks;
- whether the state file exists, and its entries;
- whether the log file exists, its modification time, and the current time;
- the `-o` arguments and `-f` flag;
- the replies of the two address fetches;
- a `server` function, which gives the reply to the update command run for a
  given block position and command line.

## Model

| member | source | states |
|---|---|---|
| Text.CountCharZero | TacitDynDns.cpp:249-251 | A character's count is zero exactly when it does not occur. |
| Text.CountCharMultiplicity | TacitDynDns.cpp:249-251 | A character's count is the number of times it occurs in the string (its multiplicity in the string's multiset), which the tests for 3 dots and 7 colons compare against. |
| Text.FindStringSpec | TacitDynDns.cpp:420 | `FindString` is -1 exactly when the pattern does not occur. Otherwise it is a position where the pattern occurs, and no earlier position has it. |
| Text.FindFirstSeparator | TacitDynDns.cpp:403 | When `a` holds no `c`, the first `c` in `a + [c] + b` sits right after `a`. |
| Text.EscapeAtSpec | TacitDynDns.cpp:399-400 | No `@` is left after the replacement. Text without `@` is unchanged. |
| Text.EscapeAtLength | TacitDynDns.cpp:399-400 | Each `@` makes the text two characters longer. |
| Text.UnescapeEscapeAt | TacitDynDns.cpp:399-400 | For credentials without `%`, percent-decoding gives back the original text. |
| Text.EscapeAtNotInjective | TacitDynDns.cpp:399-400 | `@` and a literal `%40` escape to the same text, so the escaping cannot be undone in general. |
| Text.CutAtLineEndSpec | TacitDynDns.cpp:409-410 | Replacing LF and CR by NUL leaves a prefix of the text with no line end in it. When that prefix is shorter than the text, it stops at a CR or LF. |
| Text.CutAtLineEndOfSingleLine | TacitDynDns.cpp:409-410 | Text with no line end is left as it is. |
| Text.CutAtLineEndDropsRest | TacitDynDns.cpp:258-259 | Everything from the first line end on is dropped. |
| Config.EnvironmentSettings | TacitDynDns.cpp:137-168 | Each of `statefile`, `logfile`, `iplookup` and `curl` takes the value of its last entry. Verbosity takes the last entry naming a known level, and an unknown name changes nothing. Other keys are ignored. |
| Config.UpdateStringSettings | TacitDynDns.cpp:175-201 | `domain`, `service`, `username` and `password` each take the value of their last entry. The last confirmed address is untouched. |
| Config.UpdateRecordSetting | TacitDynDns.cpp:183-188 | The record type becomes IPv6 exactly when some `record` entry says `ipv6` or `AAAA`. A later `ipv4` does not undo it. |
| Config.UpdateProtocolSetting | TacitDynDns.cpp:190-195 | The protocol becomes HTTP exactly when some `protocol` entry says `http`. |
| Config.UpdateModeSetting | TacitDynDns.cpp:203-208 | The mode becomes always exactly when some `mode` entry says `always`. |
| Config.ParsedBlock | TacitDynDns.cpp:85-96 | A parsed block starts from the struct's defaults (IPv4, HTTPS, on-change, empty strings, no last address). The entries then change it as the four lemmas above say. |
| Config.ConfigUpdateBlockCount | TacitDynDns.cpp:119-134 | The file yields exactly one block per `update` block and none for blocks of other kinds. |
| Config.ConfigBlocksEmptyIP | TacitDynDns.cpp:85-96 | Every block read from the config file starts with no last confirmed address. |
| Logging.VisibleMembers | TacitDynDns.cpp:61-80 | The verbosity filter keeps exactly the entries shown at the level. |
| Logging.NoneIsSilent | TacitDynDns.cpp:63-64 | At verbosity None nothing is written. |
| Logging.ConciseIsSeparate | TacitDynDns.cpp:66-80 | Concise writes only summary output. Minimal and above never write the summary. |
| Logging.VisibleNested | TacitDynDns.cpp:72-79 | The line levels are cumulative: a lower level writes exactly a filtered version of what a higher one writes. |
| Logging.SummaryCharAsWrittenLosesFamily | TacitDynDns.cpp:381-384 | As written, `4` is never chosen, and an IPv4-only run reports `A`. |
| Logging.SummaryCharAsWrittenDiffers | TacitDynDns.cpp:380-386 | The written and intended characters differ exactly when only IPv4 was updated. |
| Logging.SummaryChar | TacitDynDns.cpp:66-69 | The character is `A` iff both families were updated, `4` iff only IPv4, `6` iff only IPv6, and `-` iff neither. |
| Logging.SummaryCharRoundTrip | TacitDynDns.cpp:66-69 | A reader can recover both update flags from the character. |
| Logging.DayNumberBounds | TacitDynDns.cpp:113-114 | A time stamp lies inside the day window of its day number. |
| Logging.NewDayWindow | TacitDynDns.cpp:103-116 | When the log exists and its time is known, a run is not a new day exactly when the log's last change lies in today's day window. |
| Logging.NewDayAfterFullDay | TacitDynDns.cpp:113-115 | A log last changed a full day or more before now always starts a new day. |
| Resolver.TakenAsIsExclusive | TacitDynDns.cpp:249-252 | No argument is taken for both families, and no empty argument is taken for either. |
| Resolver.LastTakenIndex | TacitDynDns.cpp:247-253 | This is the position of an argument taken for the family, with no later argument taken for it. It is -1 when no argument is taken. |
| Resolver.LastOverride | TacitDynDns.cpp:247-253 | The override is empty exactly when no argument is taken for the family. Otherwise it is one of the arguments and is taken for that family. |
| Resolver.SelectOverrides | TacitDynDns.cpp:247-253 | The loop leaves in `ipv4` and `ipv6` each family's last accepted argument, or the empty string. |
| Resolver.FetchedAddressIsFirstLine | TacitDynDns.cpp:255-260 | Without an override, the address is a prefix of the fetched text with no line end in it, and when it is shorter than the text it stops at the first CR or LF. |
| Resolver.OverrideSuppressesFetch | TacitDynDns.cpp:255-277 | An accepted IPv4 override fixes the IPv4 address, whatever the fetch returns, and the address has three dots. Without an IPv6 override, IPv6 is still fetched. |
| ProtocolClient.SuccessClassification | TacitDynDns.cpp:419-423 | An update succeeds iff the exit code is 0 and the reply's first line contains `good` or `nochg`. |
| ProtocolClient.FirstAtSeparatesHost | TacitDynDns.cpp:399-404 | Whatever the credentials hold, the first `@` of the URL is the one before the service. The text after it is exactly `service?hostname=domain&myip=ip`. |
| ProtocolClient.PlainCredentialsUnchanged | TacitDynDns.cpp:399-403 | Credentials without `@` appear in the URL unchanged. |
| ProtocolClient.ReplyWordSucceeds | TacitDynDns.cpp:412-421 | A one-line reply starting with `good` or `nochg` and exit code 0 is a success. |
| ProtocolClient.GoodReplyExample | TacitDynDns.cpp:412-421 | `good 5.6.7.8` with exit code 0 is a success. |
| ProtocolClient.NoReplyWordFails | TacitDynDns.cpp:420 | A first line containing neither `g` nor `n` is a failure. |
| ProtocolClient.BadAuthExample | TacitDynDns.cpp:420 | `badauth` with exit code 0 is a failure. |
| ProtocolClient.SecondLineIgnored | TacitDynDns.cpp:409-421 | Only the reply's first line is read: a `good` after a line end does not count. |
| ProtocolClient.FailedExitFails | TacitDynDns.cpp:420 | A non-zero exit code is a failure, whatever the text says. |
| State.TagRoundTrip | TacitDynDns.cpp:226 | Each record type's saved tag reads back as that record type. |
| State.LastMatchIndex | TacitDynDns.cpp:222-236 | This is the last state entry whose domain and tag match the block, or -1 when none does. |
| State.SavedEntriesMembers | TacitDynDns.cpp:433-446 | Saving writes one entry for each block with a non-empty address, stamped with that block's clock reading, and no other entry. The number of entries equals the number of such blocks, so none is lost when two entries are equal. Every entry has a non-empty address and the tag `ipv4` or `ipv6`. |
| State.UniqueKeysConsistent | TacitDynDns.cpp:215-237 | Blocks with pairwise distinct domain and record type trivially agree on the address of each key. |
| State.LastMatchSameKey | TacitDynDns.cpp:222-236 | Two blocks with the same domain and record type pick the same state entry when loading. |
| State.LoadKeepsConsistent | TacitDynDns.cpp:215-237 | If blocks sharing a domain and record type hold the same address before loading, they still do after it. |
| State.LoadSavedPrefix | TacitDynDns.cpp:215-237 | Take what the first `n` blocks saved, when blocks sharing a key agree on their address, and load it into a block with the same keys as block `k`. The block gets `k`'s address if some block with that key among the first `n` was saved, and is unchanged otherwise. |
| State.SaveThenLoad | TacitDynDns.cpp:427-447 | When blocks that share a domain and record type hold the same address (in particular when no two share one), loading the saved file restores every non-empty address and leaves the other blocks alone. |
| State.ReloadRestores | TacitDynDns.cpp:427-447 | Under the same condition, loading the saved file into the same blocks without addresses gives the saved blocks back. |
| State.LaterEntryWins | TacitDynDns.cpp:229-233 | Of two entries about the same block, the later one decides its address. |
| State.OtherEntryIgnored | TacitDynDns.cpp:231 | An entry about another domain or record type leaves a block alone. |
| Engine.PhaseBlocks | TacitDynDns.cpp:292-318 | After a phase, every block whose attempted update succeeded holds the new address, and every other block is exactly as it was (a skipped block may already hold that address). |
| Engine.PhaseBlocksStep | TacitDynDns.cpp:300-308 | Handling block `n` changes at most block `n`. |
| Engine.AnyUpdatedBelowSpec | TacitDynDns.cpp:286-307 | The `anyUpdate` flag after `n` blocks is set exactly when some update among them succeeded. |
| Engine.AttemptedBelowSpec | TacitDynDns.cpp:292-298 | Updates are attempted once for each block of the family that passes the attempt test, in list order. |
| Engine.AttemptedBelowEmpty | TacitDynDns.cpp:294-298 | No call is made exactly when no block passes the attempt test. |
| Engine.NoAttemptsNoChange | TacitDynDns.cpp:294-318 | With no block attempted, the phase changes no block and leaves the flag false. |
| Engine.CountRecordsZero | TacitDynDns.cpp:279-283 | The block count is zero exactly when no block has that record type. |
| Engine.PhaseIsolation | TacitDynDns.cpp:292-318 | A phase changes only the address of blocks of its own family. Blocks of the other family are unchanged. |
| Engine.RunKeepsKeys | TacitDynDns.cpp:285-371 | A run changes only the blocks' last confirmed addresses; every other field of every block stays as it was. |
| Engine.IPV4PhaseLeavesIPV6Alone | TacitDynDns.cpp:285-371 | The IPv6 phase attempts, updates and reports the same whether it runs before or after the IPv4 phase has run: each IPv6 block ends up the same either way. |
| Engine.SameFamilyBlocksSameAttempts | TacitDynDns.cpp:339-344 | Two block lists that agree on a family's blocks get that family's update attempted on the same positions. |
| Engine.InvalidAddressGating | TacitDynDns.cpp:287-324 | With an invalid address, nothing is attempted or changed and the flag stays false. The log gets one warning with the block count, and only when the family has blocks. |
| Engine.ForceOrAlwaysAttempts | TacitDynDns.cpp:297 | With a valid address, a block is always attempted under force or always mode. |
| Engine.UnchangedAddressNoCalls | TacitDynDns.cpp:297-317 | Without force, a family whose blocks are all on-change and already hold the address gets no update call. Its blocks and flag stay unchanged. |
| Engine.AllSucceededFamilyHoldsAddress | TacitDynDns.cpp:292-318 | With a valid address and every attempt successful, every block of the family holds the address after the phase: attempted blocks took it, and skipped ones already held it. |
| Engine.RerunPhaseIsNoOp | TacitDynDns.cpp:292-318 | Take blocks whose family members are all in on-change mode, and suppose every attempt of a phase over them succeeded. Then a second phase with the same address and no force attempts nothing and changes nothing, whatever the replies. |
| Engine.RerunBothPhases | TacitDynDns.cpp:285-371 | Over blocks that are all in on-change mode, after both phases ran and every attempt in each succeeded, both phases re-run with no force on what they left attempt nothing and change nothing. |
| Engine.RerunIsNoOp | TacitDynDns.cpp:240-390 | Over blocks that are all in on-change mode, after a run in which every attempt succeeded, a second `UpdateAllServices` over the blocks in memory with the same addresses and no force attempts no block, so `Engine.RunCalls` is empty: no update command is run (the `Updater` methods record each run command in `calls`). It changes no block and sets neither flag. |
| Restart.PhaseKeepsConsistent | TacitDynDns.cpp:285-371 | A phase in which every attempt succeeded keeps blocks that share a domain and record type holding the same address. |
| Restart.RunKeepsConsistent | TacitDynDns.cpp:240-390 | The same for the two phases of a run. |
| Restart.StartBlocksConsistent | TacitDynDns.cpp:489-502 | The blocks a process starts from (parsed, then loaded) agree on the address of every repeated domain and record type. |
| Restart.SecondRunIsNoOp | TacitDynDns.cpp:489-503 | Two processes in a row over the same config file: when all update blocks are in on-change mode and every attempt of the first run succeeded, the second process loads back exactly the blocks the first one left. This holds also when several update blocks share a domain and record type. With the same addresses and no force it runs no update command, changes no block and sets neither flag. |
| Engine.PhaseEventsAreLines | TacitDynDns.cpp:289-317 | A phase writes only log lines, never summary output. |
| Engine.SummaryAfterLines | TacitDynDns.cpp:373-389 | Behind log lines, Concise shows exactly the summary. The line levels show the lines and no summary. |
| Engine.ConciseRunOutput | TacitDynDns.cpp:373-389 | In Concise mode a run writes only `Runs: ` (on a new day) and then the character for the two flags. |
| Engine.LineModesWriteNoSummary | TacitDynDns.cpp:373 | At the line levels a run writes its log lines and no summary. At None it writes nothing. |
| DynDns.Updater.constructor | TacitDynDns.cpp:59-99 | The state before main: default file names, Concise, `ifconfig.co`, `curl.exe`, no blocks, no new day, nothing logged, no call made. |
| DynDns.Updater.Emit | TacitDynDns.cpp:263-264 | A guarded log write adds the entry exactly when the verbosity shows it. |
| DynDns.Updater.ParseEnvironmentBlock | TacitDynDns.cpp:137-168 | The loop applies the entries in order, so `Config.EnvironmentSettings` describes the new environment. |
| DynDns.Updater.ParseUpdateBlock | TacitDynDns.cpp:171-212 | Exactly one block is appended, built from the defaults and the entries, so `Config.ParsedBlock` describes it. |
| DynDns.Updater.ReadConfigFile | TacitDynDns.cpp:119-134 | `environment` blocks set the environment, in order. `update` blocks are appended in order, and other kinds are ignored. |
| DynDns.Updater.OpenLog | TacitDynDns.cpp:491-495 | `LogNewDay` is the new-day test when the verbosity is above None, and stays false otherwise. |
| DynDns.Updater.ReadCurrentState | TacitDynDns.cpp:215-237 | Without a state file nothing changes. Otherwise each block gets the address of the last entry about it, and a block with no entry keeps its own address. |
| DynDns.Updater.WriteCurrentState | TacitDynDns.cpp:427-447 | The entries written are exactly `State.SavedEntries`. `State.SaveThenLoad` shows that loading them back restores the addresses. |
| DynDns.Updater.RunCurl | TacitDynDns.cpp:393-424 | The result is the reply classification of `ProtocolClient.SuccessClassification` for the escaped command. The command and the reply's first line are logged at Full, and the call is recorded in `calls`. |
| DynDns.Updater.CountBlocks | TacitDynDns.cpp:279-283 | The count is the number of blocks of the record type. `Engine.CountRecordsZero` says when it is zero. |
| DynDns.Updater.AttemptBlock | TacitDynDns.cpp:300-312 | One block's update: one recorded call, curl's success, its log lines and the outcome line. |
| DynDns.Updater.UpdateBlockAt | TacitDynDns.cpp:294-317 | One turn of the phase's loop: the blocks move one step along `Engine.PhaseBlocksBelow`, the flag and log follow, and a call is recorded exactly when the block is attempted. |
| DynDns.Updater.PhaseStep | TacitDynDns.cpp:292-318 | One iteration keeps the blocks, the flag, the log and the recorded calls in step with the phase up to the next block. |
| DynDns.Updater.UpdateFamilyBlocks | TacitDynDns.cpp:292-318 | The loop leaves the blocks and flag as `Engine.PhaseBlocks` and `Engine.AnyUpdated` say, the phase's entries in the log, and one call per attempted block, in list order (`Engine.AttemptedBelow`). |
| DynDns.Updater.UpdateFamily | TacitDynDns.cpp:279-324 | One family's phase, valid or not. The blocks, flag, log and recorded calls are as `Engine` says, so the isolation, gating and idempotence lemmas apply to it. |
| DynDns.Updater.ResolveAddresses | TacitDynDns.cpp:246-277 | Each address is the family's last override, or else the fetched first line. The override notes are logged at Normal. |
| DynDns.Updater.WriteSummary | TacitDynDns.cpp:373-389 | Concise mode appends `Runs: ` on a new day, then the corrected summary character. |
| DynDns.Updater.UpdateAllServices | TacitDynDns.cpp:240-390 | The blocks after the run are `Engine.RunBlocks`, and the calls made are `Engine.RunCalls`. The log gains the filtered `Engine.RunEvents`, so `Engine.ConciseRunOutput` and `Engine.RerunIsNoOp` describe the run. |
| DynDns.Updater.Run | TacitDynDns.cpp:489-503 | The successful path of main: read the config, open the log, load the state, update, then save. The environment, `LogNewDay`, blocks, recorded calls, log and saved entries are given by the functions above, over the blocks as loaded from the state file (`State.StartBlocks`); `Restart.SecondRunIsNoOp` then covers a second process started on what this one saved. |

## Left out

- Process execution. The two address fetches are parameters that hold their reply. The update command's reply comes from a `server` function of the block position and command line. Timeouts and transport failures are whatever that reply says.
- File I/O and the s-expression tokeniser. The config file is a sequence of blocks of key/value entries. The state file is a sequence of entries with a flag saying whether it exists. The log file is the sequence of entries written. The state file's header comment is not modelled.
- The clock. The current time and the log's modification time are parameters. `WriteCurrentState` takes one clock reading per saved block as a function of the block's position. The 64-bit width of the time stamps is not modelled, since only a division is applied to them.
- The exact printf text of log lines, including the `%d` given a string at lines 311 and 358. Each line is an abstract `LogEntry` with its values. The `\n` before `Runs: ` is part of the one `RunsPrefix` entry.
- Command-line parsing, console output, the help and missing-config paths of `main`, and its `try`/`catch`. Also the `Begin entry` / `End entry` lines at lines 497-498 and 504-505, and the error line at 510-511. Only the successful path of `main` is modelled.
- The fetch uses no configured echo endpoint. The `IpLookup` setting is parsed and stored but never read; the fetch commands are the hard-coded `curl -4 ifconfig.co` / `curl -6 ifconfig.co` of lines 257 and 269, and the model does the same.
- A failed fetch is not turned into an empty address: the fetch's exit code is never read, and the address is whatever text came back, cut at its first line end. An empty or garbled reply then fails the validity check of lines 287 and 334.
- ProtocolClient.FirstAtSeparatesHost: only `@` in the credentials is escaped (lines 399-400), so the lemma shows only that the first `@` of the URL comes before the service. A user name or password holding `/`, `?`, `#` or `:` can still make curl read another host or port, since a URL's authority ends at the first `/`, `?` or `#`. One holding `"` closes the quoted argument of the command line at line 403. How curl and the shell parse the command is not modelled.
- The NUL replacement works on a C string. The model reads the result as the text up to the first CR or LF. Text after the cut, which the source keeps in the buffer but never reads, is dropped.
- Resolver.ResolvedAddress: its own `ensures` only bounds the length of the fetched address. What the fetched address is, is stated by `Resolver.FetchedAddressIsFirstLine`.
- Engine.CountRecords, Logging.Visible: their own `ensures` are only bounds. What they mean is stated by `Engine.CountRecordsZero` and `Logging.VisibleMembers`.
- The log file handle staying null at verbosity None. The model writes nothing at None, which is what the guarded writes amount to.
- The linked-list representation of `UpdateBlocks` and the heap allocation of each block. The list is a sequence field of `Updater`, and each block is a value updated in place by index.

## Findings

| source | as written | input that shows it | evidently intended | confidence | as-written member | corrected member |
|---|---|---|---|---|---|---|
| TacitDynDns.cpp:381 | `if (anyUpdateIPV4 && anyUpdateIPV4)` tests the IPv4 flag twice | anyUpdateIPV4 = true, anyUpdateIPV6 = false writes `A`. At line 69, `A` means both families were updated, and `4` becomes unreachable | `anyUpdateIPV4 && anyUpdateIPV6`, giving `4` for IPv4 only, as lines 66-69 describe | not executed | Logging.SummaryCharAsWritten (shown by Logging.SummaryCharAsWrittenLosesFamily) | Logging.SummaryChar (used by Engine.SummaryEvents and DynDns.Updater.WriteSummary) |
