# Sea Lantern core, modelled in Dafny

Sea Lantern is a desktop manager for Minecraft servers: a Rust (Tauri) back end
that keeps the server registry, spawns the Java processes, captures their
console output and checks for application updates, and a TypeScript (Vue)
front end with stores for the console, plugin context menus, themes, toasts
and messages, an i18n layer and a set of formatting helpers.

This project models the sequential logic of that core, one Dafny module per
source file:

| module | file | what it holds |
|---|---|---|
| `Servers` | `server_manager.dfy` | the `ServerManager` class: server records, process handles, log buffers; start/stop/status/send/delete/stop-all; launch arguments; reader-thread appends |
| `Update` | `update.dfy` | `parse_version`, the precedence order, `compare_versions`, installer selection, release URLs, `check_update` |
| `ConfigParser` | `config_parser.dfy` | `read_properties`, `write_properties` over strings, the read-after-write round trip, `parse_server_properties` |
| `Console` | `console_store.dfy` | the console store: capped per-server buffers and read cursors |
| `ContextMenu` | `context_menu.dfy` | the plugin context-menu registry and the visible menu |
| `Messages`, `Toasts`, `IdLists` | `messages.dfy`, `toasts.dfy`, `id_lists.dfy` | per-kind message slots with timers, the global message list, the toast list, and the id-keyed removal they share |
| `Themes` | `themes.dfy` | the theme registry and its pure helpers |
| `I18nService` | `i18n_service.dfy` | the back-end translation service and its callback registry |
| `Translation`, `Locales`, `Language` | `translation.dfy`, `locales.dfy`, `language.dfy` | nested-key resolution, `{{x}}`/`{x}` interpolation and the two front-end `I18n` classes |
| `ServerStatus` | `server_status.dfy` | status classification |
| `Format` | `format.dfy` | the integer and string formatters |
| `Player` | `player.dfy` | player console commands and the whitelist filter |
| `OrderedMaps`, `Orders`, `Strings`, `Wrappers` | `ordered_map.dfy`, `orders.dfy`, `strings.dfy`, `wrappers.dfy` | insertion-ordered maps (JavaScript `Map` and object key order), lexicographic orders, the string built-ins of Rust and JavaScript, `Option`/`Result` |

Everything the core reads from its surroundings is a parameter of the
operation that reads it:
- the answer of each `try_wait` poll (`Poll`: exited, still running, error);
- the error a spawn or a stdin write reports;
- the clock, and a freshly generated UUID;
- the platform the back end is built for (`Platform`: Unix or Windows), which decides the path separators;
- whether a file exists, and the text of a file that was read;
- the iteration order of a Rust `HashMap`, given as a sequence listing its keys;
- the firing of a `setTimeout` callback, given as an explicit `Expire` call.

Objects whose fields the source changes in place are Dafny classes whose
methods state their whole new state: `ServerManager`, `ConsoleStore`,
`ContextMenuStore`, `MessageSlots`, `MessageList`, `ToastList`,
`ThemeRegistry`, the i18n `Service` and the two `I18n` classes. Loops of the
source are loops here, each proved against a specification function:
- the grace-period poll loop of `stop_server`;
- the line loops of `read_properties` and `write_properties`;
- the core and prerelease loops of version parsing and comparison;
- the suffix loop of `find_suitable_asset`;
- the path walk of `resolveNestedValue`, and the replacement loop of `t_with_options`;
- `Vec::retain` on an array, and the cleanup loop over the context-menu registry.

## Model

| member | source | states |
|---|---|---|
| Servers.FindServer | src-tauri/src/services/server_manager.rs:75-79 | the index returned holds the id and no earlier record does; None exactly when no record has the id |
| Servers.Without | src-tauri/src/services/server_manager.rs:250 | a record is in the result exactly when it is in the list and has another id |
| Servers.WithoutIds | src-tauri/src/services/server_manager.rs:250 | removing an id leaves exactly the other ids |
| Servers.WithoutConcat | src-tauri/src/services/server_manager.rs:250 | the filter works piece by piece, so the survivors keep their relative order |
| Servers.WithoutAbsent | src-tauri/src/services/server_manager.rs:250 | removing an id that no record has changes nothing |
| Servers.UpdateKeepsIds | src-tauri/src/services/server_manager.rs:122-127 | replacing a record by one with the same id keeps the set of ids |
| Servers.ParentOf | src-tauri/src/services/server_manager.rs:45-48 | `Path::parent` over components separated by `/`, and by `\` as well on Windows: a parent, when there is one, is a proper prefix of the path |
| Servers.ParentIgnoresTrailingSeparators | src-tauri/src/services/server_manager.rs:45-48 | separators at the end of a path do not change its parent |
| Servers.RootHasNoParent | src-tauri/src/services/server_manager.rs:45-48 | the empty path and a root alone have no parent, so the server directory falls back to "." |
| Servers.ServerDirOfJarInDir | src-tauri/src/services/server_manager.rs:45-48 | a jar named `name` after any directory `dir` and any run of separators, absolute or relative and nested or not, gets `dir` with its trailing separators and "." components trimmed; exactly `dir` when `dir` ends in a component |
| Servers.ServerDirOfBareName | src-tauri/src/services/server_manager.rs:45-48 | a jar name without separators gets the empty parent as its server directory |
| Servers.HeapArgParses | src-tauri/src/services/server_manager.rs:100-101 | the number inside `-Xmx{n}M`/`-Xms{n}M` reads back as the configured size |
| Servers.LaunchArgsWords | src-tauri/src/services/server_manager.rs:99-105 | the arguments are exactly the two heap limits, the words of the default JVM options, the server's own options, then `-jar`, the jar and `nogui` |
| Servers.LaunchArgsFrame | src-tauri/src/services/server_manager.rs:99-105 | the arguments always start with the two heap limits and end with `-jar`, the jar path and `nogui` |
| Servers.LastN | src-tauri/src/services/server_manager.rs:140 | the result is the suffix of the input of length `min(n, |s|)`: its last `n` elements, or all of them when there are fewer |
| Servers.ReaderAppendsKeepLast | src-tauri/src/services/server_manager.rs:138-143 | a non-empty run of reader appends, each capping the buffer at `n`, leaves the same buffer as one cap to the last `n` lines of the old buffer followed by all the new lines |
| Servers.LastNConcat | src-tauri/src/services/server_manager.rs:140 | trimming before appending a non-empty run changes nothing once the result is trimmed |
| Servers.AppendAll | src-tauri/src/services/server_manager.rs:268-272 | the set of servers that have a buffer is unchanged: no buffer is created or removed |
| Servers.AppendAllTwice | src-tauri/src/services/server_manager.rs:268-272 | two appends in a row equal one append of both runs |
| Servers.GraceOutcome | src-tauri/src/services/server_manager.rs:184-204 | the grace period always ends stopped, failed or killed, never as "not running" |
| Servers.StopMessages | src-tauri/src/services/server_manager.rs:174-212 | every stop outcome logs at least one console line |
| Servers.GraceOutcomeLocal | src-tauri/src/services/server_manager.rs:184-204 | the grace period depends only on polls 1 to 20 |
| Servers.StopLooksAtMost21Polls | src-tauri/src/services/server_manager.rs:161-214 | two environments that agree on polls 0 to 20 give the same stop outcome: at most 20 polls after the first |
| Servers.GraceForceKill | src-tauri/src/services/server_manager.rs:184-212 | from any poll on, the grace period ends in a kill exactly when every remaining poll up to 20 says "still running" |
| Servers.ForceKillIffAlwaysRunning | src-tauri/src/services/server_manager.rs:184-212 | the server is force-killed exactly when the first poll and all 20 polls of the grace period found it running |
| Servers.AfterSend | src-tauri/src/services/server_manager.rs:216-224 | the command (with its line ending) reaches the handle's stdin exactly when the send succeeds; other handles are untouched |
| Servers.ServerManager.constructor | src-tauri/src/services/server_manager.rs:19-30 | the loaded records, no handles, an empty buffer for each loaded id, and the build's platform |
| Servers.ServerManager.CreateServer | src-tauri/src/services/server_manager.rs:42-61 | one record appended at the end with the request's fields, the jar's parent directory, empty JVM options and core version, no start time; an empty buffer for the new id |
| Servers.ServerManager.ImportServer | src-tauri/src/services/server_manager.rs:63-72 | a missing jar is the error "JAR file not found" and changes nothing; otherwise the record `create_server` builds is appended: the request's name, paths and memory limits, the jar's parent as directory, core type and version "unknown", core version "", port 25565, no JVM arguments, created now and never started, together with an empty buffer |
| Servers.ServerManager.AppendLog | src-tauri/src/services/server_manager.rs:268-272 | one line pushed to an existing buffer, without trimming |
| Servers.ServerManager.ReaderAppend | src-tauri/src/services/server_manager.rs:134-157 | the buffer becomes the last `max_log_lines` of the old one plus the (tagged, for stderr) line; no buffer is created; other buffers are unchanged |
| Servers.ServerManager.PollHandle | src-tauri/src/services/server_manager.rs:82-91 | alive exactly when a handle exists and polls as running; otherwise the stale handle is dropped |
| Servers.ServerManager.StartServer | src-tauri/src/services/server_manager.rs:74-159 | "Server not found" for an unknown id; "Server is already running" for a live handle; a stale handle is purged; a failed spawn reports its error; otherwise the handle, the start time and the "starting" line are recorded |
| Servers.ServerManager.RecordStart | src-tauri/src/services/server_manager.rs:120-129 | the handle is stored, that record alone gets its start time, and the "starting" line is logged |
| Servers.ServerManager.SendCommand | src-tauri/src/services/server_manager.rs:216-224 | "Server is not running" without a handle; otherwise the write error or success, with the command written only on success |
| Servers.ServerManager.StopServer | src-tauri/src/services/server_manager.rs:161-214 | records unchanged, no handle left for the id, and the buffer extended by exactly the lines of the stop outcome |
| Servers.ServerManager.LogStopResult | src-tauri/src/services/server_manager.rs:196-212 | logs the line of how the grace period ended, none after a poll error |
| Servers.ServerManager.AwaitExit | src-tauri/src/services/server_manager.rs:184-204 | the poll loop yields the grace-period outcome of the specification |
| Servers.ServerManager.ServerList | src-tauri/src/services/server_manager.rs:226-228 | the listed ids are exactly the ids with a log buffer |
| Servers.ServerManager.GetServerStatus | src-tauri/src/services/server_manager.rs:230-244 | Running exactly when a handle exists and polls as running, Stopped otherwise, and then the stale handle is gone; no pid and no uptime |
| Servers.ServerManager.DeleteServer | src-tauri/src/services/server_manager.rs:246-259 | no record, buffer or handle remains for the id; the other records keep their order |
| Servers.ServerManager.GetLogs | src-tauri/src/services/server_manager.rs:261-266 | the buffer from `since` on, and nothing for an unknown id or a `since` past the end |
| Servers.ServerManager.StopAllServers | src-tauri/src/services/server_manager.rs:274-277 | no handle remains and the records are unchanged; every buffer of a server that had a handle gains exactly the lines of that server's stop, and every other buffer is unchanged |
| Update.CompareIdent | src-tauri/src/commands/update.rs:204-215 | numeric identifiers sort below alphanumeric ones; within a kind by value or text |
| Update.CompareIdentOrder | src-tauri/src/commands/update.rs:204-215 | the identifier order is total, antisymmetric and transitive |
| Update.CompareVersionOrder | src-tauri/src/commands/update.rs:223-253 | version precedence is a total order that agrees with equality |
| Update.ReleaseAbovePrerelease | src-tauri/src/commands/update.rs:229-235 | with equal cores a release is above every prerelease |
| Update.ComparePre | src-tauri/src/commands/update.rs:236-250 | the loop gives the lexicographic comparison of the two prerelease lists (a strict prefix is smaller) |
| Update.Compare | src-tauri/src/commands/update.rs:223-253 | the step-by-step comparison agrees with the precedence order |
| Update.StripV | src-tauri/src/commands/update.rs:262 | the result is a suffix of the input that does not start with `v` or `V` |
| Update.StripVPast | src-tauri/src/commands/update.rs:262 | stripping stops at the first character that is not a `v` |
| Update.CoreNumber | src-tauri/src/commands/update.rs:271 | the trimmed piece's `u64` value, 0 when it does not parse |
| Update.CoreAt | src-tauri/src/commands/update.rs:270-271 | the `k`-th core number, 0 for a missing piece |
| Update.CoreOf | src-tauri/src/commands/update.rs:269-272 | always three numbers, each within `u64` |
| Update.ParseCore | src-tauri/src/commands/update.rs:269-272 | the loop over the pieces fills the core as the specification says |
| Update.IdentOf | src-tauri/src/commands/update.rs:278-281 | numeric exactly when the piece parses as `u64`; otherwise the ASCII lower-cased text |
| Update.IdentsOf | src-tauri/src/commands/update.rs:276-282 | one identifier per non-empty piece, in order |
| Update.IdentsOfNonEmpty | src-tauri/src/commands/update.rs:276-282 | with no empty piece every piece becomes an identifier in place |
| Update.PreOf | src-tauri/src/commands/update.rs:274-289 | None when there is no non-empty identifier, otherwise the identifiers |
| Update.ParseVersion | src-tauri/src/commands/update.rs:261-292 | the parsed version has a three-number core within `u64` and never an empty prerelease list |
| Update.ParseIgnoresBuild | src-tauri/src/commands/update.rs:263 | whatever follows the first '+' does not change the parsed version |
| Update.ParseIgnoresLeadingV | src-tauri/src/commands/update.rs:262 | a leading `v` does not change the parsed version |
| Update.RenderIdents | src-tauri/src/commands/update.rs:276-282 | one text per identifier, in order |
| Update.IdentRoundTrip | src-tauri/src/commands/update.rs:278-281 | each rendered identifier parses back as itself |
| Update.CoreRoundTrip | src-tauri/src/commands/update.rs:269-272 | the text `a.b.c` parses back as the three numbers |
| Update.ParseWithPre | src-tauri/src/commands/update.rs:261-292 | `a.b.c-ids` parses as that core and those identifiers |
| Update.ParseWithoutPre | src-tauri/src/commands/update.rs:261-292 | `a.b.c` parses as that core with no prerelease |
| Update.ParseRender | src-tauri/src/commands/update.rs:261-292 | round trip: parsing the usual text of a version gives it back |
| Update.RenderedAs | src-tauri/src/commands/update.rs:261-292 | a version whose usual text is `text` is what `text` parses to |
| Update.CompareVersionsOrder | src-tauri/src/commands/update.rs:186-190 | never an update to the same version, never in both directions, and transitive |
| Update.Parses123 | src-tauri/src/commands/update.rs:311-317 | "1.2.3" parses to core 1, 2, 3 and no prerelease |
| Update.Parses124 | src-tauri/src/commands/update.rs:311-317 | "1.2.4" parses to core 1, 2, 4 |
| Update.Parses199 | src-tauri/src/commands/update.rs:311-317 | "1.9.9" parses to core 1, 9, 9 |
| Update.Parses200 | src-tauri/src/commands/update.rs:311-317 | "2.0.0" parses to core 2, 0, 0 |
| Update.ParsesTagged | src-tauri/src/commands/update.rs:303-309 | `1.2.3-<tag>.<n>` parses to the tag and the number |
| Update.ParsesBeta1 | src-tauri/src/commands/update.rs:305 | "1.2.3-beta.1" parses to `beta`, 1 |
| Update.ParsesBeta2 | src-tauri/src/commands/update.rs:307 | "1.2.3-beta.2" parses to `beta`, 2 |
| Update.ParsesRc1 | src-tauri/src/commands/update.rs:308 | "1.2.3-rc.1" parses to `rc`, 1 |
| Update.ParsesRc2 | src-tauri/src/commands/update.rs:308 | "1.2.3-rc.2" parses to `rc`, 2 |
| Update.ParsesV199 | src-tauri/src/commands/update.rs:315 | "v1.9.9" parses like "1.9.9" |
| Update.ParsesWithBuild | src-tauri/src/commands/update.rs:320-322 | "1.2.3+abc" and "1.2.3+def" parse like "1.2.3" |
| Update.SameTagByNumber | src-tauri/src/commands/update.rs:307-308 | prereleases of one core with the same tag compare by their numbers |
| Update.PrereleaseTestCases | src-tauri/src/commands/update.rs:303-309 | the four prerelease assertions of the unit test hold |
| Update.PatchAndMajorOrder | src-tauri/src/commands/update.rs:311-317 | 1.2.3 < 1.2.4 and 1.9.9 < 2.0.0 |
| Update.ReleaseTestCases | src-tauri/src/commands/update.rs:311-322 | the core-number, leading-`v`, equal-version and build-metadata assertions of the unit tests hold |
| Update.FirstMatching | src-tauri/src/commands/update.rs:174-181 | the first asset whose lower-cased name ends with the suffix, None when none does |
| Update.SuitableAsset | src-tauri/src/commands/update.rs:165-184 | the result is the URL of an asset matching some suffix, None exactly when no asset matches any suffix |
| Update.SuitableAssetPriority | src-tauri/src/commands/update.rs:165-184 | when suffix `i` is the first any asset matches, the pick is the first asset matching suffix `i` |
| Update.FindSuitableAsset | src-tauri/src/commands/update.rs:165-184 | the suffix loop picks what the specification picks |
| Update.ApiUrl | src-tauri/src/commands/update.rs:65-67 | the URL lies under the configured API base and ends in `/releases/latest` |
| Update.ReleaseUrl | src-tauri/src/commands/update.rs:69-71 | the URL lies under the configured web base and ends in `/releases/tag/{tag}` |
| Update.ReleaseUrlInjective | src-tauri/src/commands/update.rs:69-71 | different tags give different release pages |
| Update.UpdateInfoOf | src-tauri/src/commands/update.rs:144-162 | the latest version is the tag without its leading `v`; an update is reported exactly when it is above the current version; the download URL is the suitable installer, else the release's page, else the constructed release page; notes, dates and source are carried over |
| Update.CheckUpdate | src-tauri/src/commands/update.rs:91-118 | Gitee's answer when it has one, else GitHub's, else an error naming both failures |
| ConfigParser.StripCr | src-tauri/src/services/config_parser.rs:13 | the line itself, or the line without one trailing carriage return |
| ConfigParser.Lines | src-tauri/src/services/config_parser.rs:13 | `str::lines`: no line holds a line feed |
| ConfigParser.Unlines | src-tauri/src/services/config_parser.rs:35-62 | a non-empty list of lines gives a text that ends in a line feed |
| ConfigParser.LinesOfUnlines | src-tauri/src/services/config_parser.rs:13 | reading back written lines gives them again, up to a trailing carriage return each |
| ConfigParser.UnlinesConcat | src-tauri/src/services/config_parser.rs:35-62 | writing two runs of lines is writing each in turn |
| ConfigParser.ReadProperties | src-tauri/src/services/config_parser.rs:7-26 | a read failure is an error; otherwise the line loop builds the map of the specification |
| ConfigParser.PropsConcat | src-tauri/src/services/config_parser.rs:13-23 | reading two runs of lines is reading each in turn |
| ConfigParser.DefinedKeys | src-tauri/src/services/config_parser.rs:13-23 | a key is present exactly when it was before or some line defines it |
| ConfigParser.UntouchedKey | src-tauri/src/services/config_parser.rs:13-23 | lines that do not define a key leave its entry alone |
| ConfigParser.LastDefinitionWins | src-tauri/src/services/config_parser.rs:18-22 | a later line for the same key overwrites an earlier one |
| ConfigParser.ParsePlainLine | src-tauri/src/services/config_parser.rs:18-21 | `key=value` reads back as that key and value, and the value may contain '=' |
| ConfigParser.ParseStripCr | src-tauri/src/services/config_parser.rs:13-21 | a trailing carriage return does not change what a line defines |
| ConfigParser.PropsStripCrs | src-tauri/src/services/config_parser.rs:13-23 | trailing carriage returns do not change the map read |
| ConfigParser.RewriteOne | src-tauri/src/services/config_parser.rs:36-54 | one pass of the copying loop: a line whose key has a new value becomes `key=value` and records the key; any other line is kept and records nothing |
| ConfigParser.CopyLines | src-tauri/src/services/config_parser.rs:35-55 | the copying loop writes the rewritten lines and records the keys written in place |
| ConfigParser.AppendMissing | src-tauri/src/services/config_parser.rs:57-62 | the appending loop writes exactly the missing keys' lines |
| ConfigParser.WriteProperties | src-tauri/src/services/config_parser.rs:29-65 | the text written is the rewritten original followed by the missing keys; an unreadable original counts as empty; a write failure is reported |
| ConfigParser.WriteEndsWithNewline | src-tauri/src/services/config_parser.rs:35-62 | the text written is empty or ends in a line feed |
| ConfigParser.WriteThenRead | src-tauri/src/services/config_parser.rs:7-65 | round trip: reading the written text gives the new value of every key of `values` and the old value of every other key, for plain keys and values |
| ConfigParser.EntryFor | src-tauri/src/services/config_parser.rs:74-87 | a described key takes its description, type, default and category; any other key is an "other" string with empty description and default |
| ConfigParser.CompareEntriesOrder | src-tauri/src/services/config_parser.rs:91 | the (category, key) order is a total preorder |
| ConfigParser.InsertEntry | src-tauri/src/services/config_parser.rs:91 | the result holds the entries of the list and the new one, no more and no fewer |
| ConfigParser.InsertEntrySorted | src-tauri/src/services/config_parser.rs:91 | inserting into a sorted list keeps it sorted |
| ConfigParser.SortEntries | src-tauri/src/services/config_parser.rs:91 | the result is sorted by (category, key) and is a permutation of the input |
| ConfigParser.EntriesInOrder | src-tauri/src/services/config_parser.rs:74-88 | one entry per key of the raw map, in its iteration order |
| ConfigParser.ParseServerProperties | src-tauri/src/services/config_parser.rs:68-94 | a read failure propagates; otherwise one entry per property, sorted by (category, key), next to the raw map |
| Orders.CompareStringsOrder | src-tauri/src/services/config_parser.rs:91 | string comparison is a total order that agrees with equality |
| Console.AppendedKeepsNewest | src/stores/consoleStore.ts:12-22 | at most 5000 lines are kept, newest last; nothing is dropped while the total fits |
| Console.AppendedTwice | src/stores/consoleStore.ts:12-22 | two appends equal one append of both runs |
| Console.ConsoleStore.constructor | src/stores/consoleStore.ts:6-10 | no buffers, no cursors, no active server |
| Console.ConsoleStore.AppendLogs | src/stores/consoleStore.ts:12-22 | only that server's buffer changes, to the capped result of appending the new lines (created empty first if unseen) |
| Console.ConsoleStore.AppendLocal | src/stores/consoleStore.ts:24-29 | only that server's buffer changes, by exactly one line at the end and no trimming |
| Console.ConsoleStore.GetLogCursor | src/stores/consoleStore.ts:31-33 | the cursor last set, or 0 |
| Console.ConsoleStore.SetLogCursor | src/stores/consoleStore.ts:35-37 | only that server's cursor changes |
| Console.ConsoleStore.ClearLogs | src/stores/consoleStore.ts:39-50 | that server's buffer is empty; all cursors are kept |
| Console.ConsoleStore.SetActiveServer | src/stores/consoleStore.ts:52-54 | only the active server changes |
| ContextMenu.Tag | src/stores/contextMenuStore.ts:56-59 | each raw item, in order, with the plugin's id |
| ContextMenu.Registered | src/stores/contextMenuStore.ts:50-63 | the plugin's list in that context is replaced by its tagged items; other contexts are unchanged; the registry stays well formed |
| ContextMenu.PutTagged | src/stores/contextMenuStore.ts:61 | adding tagged items gives a non-empty, well-formed context |
| ContextMenu.Unregistered | src/stores/contextMenuStore.ts:64-76 | the plugin leaves the context, which goes when it becomes empty; an unknown context changes nothing; other contexts are unchanged |
| ContextMenu.RegisterThenUnregister | src/stores/contextMenuStore.ts:47-77 | registering a new plugin and unregistering it gives back the same registry, key order included |
| ContextMenu.CleanStepEffect | src/stores/contextMenuStore.ts:167-175 | one step of the cleanup removes the plugin from that context only |
| ContextMenu.CleanedCompose | src/stores/contextMenuStore.ts:165-177 | two cleanup runs over two sets of contexts make one run over both |
| ContextMenu.CleanupFromEffect | src/stores/contextMenuStore.ts:165-177 | after the steps for some contexts, those have lost the plugin (and are gone if emptied); the rest is unchanged |
| ContextMenu.CleanupEffect | src/stores/contextMenuStore.ts:165-177 | after the cleanup no context holds the plugin, emptied contexts are gone, and every other plugin's items stay |
| ContextMenu.ShownProvenance | src/stores/contextMenuStore.ts:110-126 | every shown item was registered for the context, or for "global" when the context is another one |
| ContextMenu.ShownComplete | src/stores/contextMenuStore.ts:110-126 | every item registered for the context, or for "global" when the context is another one, is shown |
| ContextMenu.ContextMenuStore.constructor | src/stores/contextMenuStore.ts:36-43 | hidden, at 0,0, empty, and no menus |
| ContextMenu.ContextMenuStore.HandleEvent | src/stores/contextMenuStore.ts:47-77 | "register" and "unregister" change the registry as specified, any other action nothing; the visible menu is untouched |
| ContextMenu.ContextMenuStore.DropPlugin | src/stores/contextMenuStore.ts:66-75 | deletes the plugin and then the context if it became empty |
| ContextMenu.ContextMenuStore.CollectItems | src/stores/contextMenuStore.ts:114-116 | the items of the context's plugins, plugin by plugin in insertion order |
| ContextMenu.ContextMenuStore.ShowContextMenu | src/stores/contextMenuStore.ts:104-138 | no items: nothing changes; otherwise visible at the position with the context's items followed by the global ones |
| ContextMenu.ContextMenuStore.HideContextMenu | src/stores/contextMenuStore.ts:140-145 | hidden, no items, empty context and data, position kept |
| ContextMenu.ContextMenuStore.CleanupPluginMenus | src/stores/contextMenuStore.ts:165-177 | the registry becomes the cleanup of the specification, which the lemmas above characterise; the visible menu is untouched |
| ContextMenu.ContextMenuStore.GetState | src/stores/contextMenuStore.ts:179-188 | the six fields of the visible menu |
| ContextMenu.ContextMenuStore.HasMenuItems | src/stores/contextMenuStore.ts:190-193 | true exactly when the context is registered, since no registered context is empty |
| IdLists.RemoveFirst | src/composables/useToast.ts:30-35 | the list without its first entry of that id, unchanged when there is none |
| IdLists.FindIndex | src/composables/useToast.ts:31 | the first index holding the id, or -1 exactly when no entry has it |
| IdLists.SpliceIsRemoveFirst | src/composables/useToast.ts:31-34 | splicing out the index found is removing the first entry of the id |
| IdLists.RemoveAbsent | src/composables/useToast.ts:30-35 | removing an unknown id changes nothing |
| IdLists.RemoveFirstEffect | src/composables/useToast.ts:30-35 | on increasing ids, removal keeps ids increasing, drops the id and keeps every other entry |
| IdLists.RemoveFirstMembers | src/composables/useToast.ts:30-35 | removal keeps only entries of the list, and every entry of another id |
| IdLists.RemoveFirstDropsId | src/composables/useToast.ts:30-35 | on increasing ids no entry of the id is left |
| IdLists.RemoveFirstIncreasing | src/composables/useToast.ts:30-35 | removal keeps ids increasing |
| IdLists.AppendFresh | src/composables/useToast.ts:16-18 | appending an id above all others keeps ids increasing |
| Messages.ShowDuration | src/composables/useMessage.ts:70-121 | the duration given, else the success default for success and the composable's default for the other kinds |
| Messages.NoKindLeft | src/composables/useMessage.ts:126-135 | a map without any of the four kinds is empty |
| Messages.MessageSlots.constructor | src/composables/useMessage.ts:24-36 | all slots and timers empty |
| Messages.MessageSlots.ClearTimer | src/composables/useMessage.ts:38-65 | only that kind's timer is cancelled |
| Messages.MessageSlots.Show | src/composables/useMessage.ts:70-121 | only that kind's slot changes; its old timer is cancelled and a new one is pending exactly when the duration is positive |
| Messages.MessageSlots.Expire | src/composables/useMessage.ts:70-121 | a pending timer empties its slot; a cancelled one does nothing |
| Messages.MessageSlots.Clear | src/composables/useMessage.ts:140-163 | only that slot and its timer are cleared |
| Messages.MessageSlots.ClearAll | src/composables/useMessage.ts:126-135 | every slot and every timer cleared |
| Messages.MessageSlots.Unmount | src/composables/useMessage.ts:165-170 | every timer cancelled, the texts kept |
| Messages.MessageList.constructor | src/composables/useMessage.ts:190 | an empty list |
| Messages.MessageList.AddMessage | src/composables/useMessage.ts:195-209 | the message appended under the current id, which is returned and then advanced; a removal is scheduled exactly when the duration is positive; ids stay increasing |
| Messages.MessageList.RemoveMessage | src/composables/useMessage.ts:214-219 | the message of that id is removed, the others keep their order; unknown ids change nothing |
| Messages.MessageList.Expire | src/composables/useMessage.ts:199-206 | a scheduled removal removes the message if it is still there |
| Toasts.ToastList.constructor | src/composables/useToast.ts:12-14 | an empty list and id 0 |
| Toasts.ToastList.AddToast | src/composables/useToast.ts:16-28 | the toast appended under the current id, which is then advanced; a removal is scheduled exactly when the duration is positive; ids stay increasing |
| Toasts.ToastList.RemoveToast | src/composables/useToast.ts:30-35 | the toast of that id is removed, the others keep their order; unknown ids change nothing |
| Toasts.ToastList.Expire | src/composables/useToast.ts:20-27 | a scheduled removal removes the toast if it is still there |
| OrderedMaps.Empty | src/stores/contextMenuStore.ts:43 | no keys and no entries |
| OrderedMaps.SizeZero | src/stores/contextMenuStore.ts:72 | size 0 exactly when there are no entries |
| OrderedMaps.Put | src/stores/contextMenuStore.ts:61 | `Map.set`: the entry is set, a new key goes last and an existing key keeps its place |
| OrderedMaps.RemoveKey | src/stores/contextMenuStore.ts:67 | the keys other than that one remain, still without repetition |
| OrderedMaps.Remove | src/stores/contextMenuStore.ts:67 | `Map.delete`: only that entry is gone, and the map stays well formed |
| OrderedMaps.RemoveKeyAbsent | src/stores/contextMenuStore.ts:67 | deleting an absent key changes nothing |
| OrderedMaps.RemoveKeyLast | src/stores/contextMenuStore.ts:67 | deleting a key that was just appended gives back the key order before it |
| OrderedMaps.PutPut | src/stores/contextMenuStore.ts:52-61 | setting a key twice is setting it once to the second value |
| OrderedMaps.RemovePut | src/stores/contextMenuStore.ts:47-77 | deleting a key just set is deleting it from the map before the set; for a new key, that gives the map back |
| OrderedMaps.PutSame | src/stores/contextMenuStore.ts:61 | setting a key to its own value changes nothing |
| OrderedMaps.FlattenFrom | src/stores/contextMenuStore.ts:114-116 | every item of the concatenation comes from one of the keys |
| OrderedMaps.FlattenHas | src/stores/contextMenuStore.ts:114-116 | every item of every key is in the concatenation |
| Themes.IsThemeDefinitionShape | src/themes/index.ts:41-52 | accepted exactly when it is an object whose id and name are strings and whose four plans are object-like (null included) |
| Themes.MapLegacyPlanName | src/themes/index.ts:117-127 | the snake-case names map to the acrylic plans and anything outside the table to light |
| Themes.MapLegacyPlanNameIdempotent | src/themes/index.ts:117-127 | mapping is idempotent on its outputs |
| Themes.ThemeOptions | src/themes/index.ts:65-71 | one option per registered theme, in registry order, with its name and id |
| Themes.ThemeOptionsCover | src/themes/index.ts:65-71 | the options' values are exactly the registered ids, without repetition |
| Themes.ThemeRegistry.constructor | src/themes/index.ts:3 | an empty registry |
| Themes.ThemeRegistry.GetThemeById | src/themes/index.ts:73-76 | the theme under that id, none when absent |
| Themes.ThemeRegistry.RegisterTheme | src/themes/index.ts:78-84 | the theme is stored under its id, overwriting in place; other entries unchanged |
| Themes.ThemeRegistry.UnregisterTheme | src/themes/index.ts:86-93 | true and removed exactly when present; otherwise false and unchanged |
| Themes.ThemeRegistry.GetThemeColors | src/themes/index.ts:101-106 | none for an unknown id, else that plan's colours |
| Themes.ThemeRegistry.GetThemeColorValue | src/themes/index.ts:108-115 | a colour exactly when the theme and the colour exist, and then that colour |
| Themes.ThemeRegistry.GetAllThemes | src/themes/index.ts:60-63 | a copy equal to the registry |
| Themes.ThemeRegistry.GetThemeOptions | src/themes/index.ts:65-71 | the options of the registry |
| I18nService.Translate | src-tauri/src/services/i18n.rs:72-90 | the current locale's entry when present; in every case an entry of the locale, an entry of zh-CN, or the key |
| I18nService.TranslateFallsBack | src-tauri/src/services/i18n.rs:72-90 | a locale lacking the key answers what zh-CN answers |
| I18nService.ReplaceOptionsAbsent | src-tauri/src/services/i18n.rs:92-100 | text without any placeholder is unchanged |
| I18nService.ReplaceOptionsWhole | src-tauri/src/services/i18n.rs:92-100 | a text that is one placeholder becomes its value |
| I18nService.DistinctCard | src-tauri/src/services/i18n.rs:40-43 | an iteration order of the callbacks has as many entries as there are callbacks |
| I18nService.Service.constructor | src-tauri/src/services/i18n.rs:17-30 | the three built-in tables, locale zh-CN, no callbacks, next id 1 |
| I18nService.Service.SetLocale | src-tauri/src/services/i18n.rs:36-44 | any locale is stored, and every registered callback is called exactly once with (old, new) |
| I18nService.Service.OnLocaleChange | src-tauri/src/services/i18n.rs:46-63 | the callback is registered under the next id, which then grows by one |
| I18nService.Service.RemoveLocaleCallback | src-tauri/src/services/i18n.rs:65-70 | only that id is removed; an unknown id changes nothing |
| I18nService.Service.TWithOptions | src-tauri/src/services/i18n.rs:92-100 | the loop replaces each "{k}" by its value in the translation, option by option |
| I18nService.Service.GetAllTranslations | src-tauri/src/services/i18n.rs:102-110 | the current locale's table, or an empty one |
| Translation.WalkConcat | src/locales/index.ts:90-100 | following a path in two legs is following it at once |
| Translation.WalkFromNothing | src/locales/index.ts:90-100 | nothing is reached from nothing |
| Translation.ResolveFailsEarly | src/locales/index.ts:90-100 | a missing step, or a string reached before the last key, resolves to nothing |
| Translation.ResolveNestedValue | src/locales/index.ts:90-100 | the loop resolves the path as specified |
| Translation.Repeat | src/locales/index.ts:105-109 | `n` copies of the character |
| Translation.PlaceholderLength | src/locales/index.ts:105-109 | no placeholder, or one longer than its braces that fits in the text |
| Translation.InterpolateNoOptions | src/locales/index.ts:102-113 | with no options a pass leaves the text as it is |
| Translation.InterpolateNoBraces | src/locales/index.ts:102-113 | text without '{' is unchanged |
| Translation.InterpolateVariablesNoOptions | src/locales/index.ts:102-113 | with no options the template is returned unchanged |
| Translation.InterpolateOne | src/locales/index.ts:102-113 | a lone `{{name}}` becomes the option of its trimmed name |
| Translation.T | src/locales/index.ts:129-141 | the key when neither the locale nor en-US has a string, else that string interpolated |
| Translation.LookupChain | src/locales/index.ts:132-135 | the current locale wins when it has the string, otherwise en-US decides |
| Translation.UndottedKey | src/locales/index.ts:130 | a key without dots is a one-step path |
| Locales.I18n.constructor | src/locales/index.ts:115-116 | the current locale starts as zh-CN, a supported code |
| Locales.I18n.SetLocale | src/locales/index.ts:119-123 | only a supported code is taken, so the locale stays supported |
| Locales.I18n.GetLocale | src/locales/index.ts:125-127 | the current locale, always supported |
| Locales.I18n.Translate | src/locales/index.ts:129-141 | the key when neither the locale nor en-US has a string, else that string interpolated |
| Language.I18n.constructor | src/language/index.ts:7-40 | the discovered codes, each with its tree, and locale zh-CN |
| Language.I18n.SetTranslations | src/language/index.ts:46-50 | a supported locale's tree is replaced, otherwise nothing changes |
| Language.I18n.SetLocale | src/language/index.ts:85-89 | only a supported code is taken |
| Language.I18n.Translate | src/language/index.ts:95-107 | the key when neither the locale nor en-US has a string, else that string interpolated |
| Language.MissingTableFallsBack | src/language/index.ts:56-66 | a locale without a tree answers what en-US answers |
| ServerStatus.GetServerStatusInfo | src/utils/serverStatus.ts:133-143 | every field is the matching helper's answer, and a falsy status reads as the stopped code |
| ServerStatus.StartStopExclusive | src/utils/serverStatus.ts:89-98 | no status allows both start and stop |
| ServerStatus.TransitioningIsWarning | src/utils/serverStatus.ts:15-115 | transitional exactly when the variant is "warning", and exactly when the colour is amber |
| ServerStatus.FalsyIsStopped | src/utils/serverStatus.ts:75-98 | a missing or empty status is stopped, can start, cannot stop, class "stopped", variant "neutral" |
| ServerStatus.UnknownIsNeutral | src/utils/serverStatus.ts:15-115 | any other status gets "neutral", "stopped", grey and the stopped text |
| ServerStatus.ErrorCanRestart | src/utils/serverStatus.ts:15-98 | the error code shows the error badge, can start and cannot stop |
| Format.FormatServerPath | src/utils/format.ts:27-39 | a suffix of the input: from the first "servers/", else the first "servers\\", else the whole input |
| Format.FormatServerPathIdempotent | src/utils/format.ts:27-39 | shortening twice is shortening once |
| Format.ShortestAt | src/utils/format.ts:27-39 | a path whose first marker is at its start is left as it is |
| Format.UptimeDecomposes | src/utils/format.ts:46-62 | days, hours, minutes and seconds make up the uptime, each below its bound |
| Format.UptimeParts | src/utils/format.ts:46-62 | one rendered part per unit shown, in order |
| Format.FormatUptime | src/utils/format.ts:46-62 | "0秒" for zero or negative input, else the parts joined by spaces |
| Format.UptimeShows | src/utils/format.ts:46-62 | days, hours and minutes appear exactly when nonzero, seconds exactly when under a minute |
| Format.UptimeTotal | src/utils/format.ts:46-62 | the parts add up to the uptime, rounded down to the minute from a minute on |
| Format.Truncate | src/utils/format.ts:140-143 | unchanged when it fits; otherwise a prefix and the suffix, exactly `maxLength` long |
| Format.TruncateIdempotent | src/utils/format.ts:140-143 | truncating twice is truncating once |
| Format.KeepNameChars | src/utils/format.ts:151 | the result has only `[a-z0-9_]` characters |
| Format.KeepAllNameChars | src/utils/format.ts:151 | a string of name characters is kept whole |
| Format.FormatPlayerName | src/utils/format.ts:150-152 | name characters only: the filtered lower-cased name cut to its first 16 characters, the whole of it when it is shorter |
| Format.TrimKeepsNameChars | src/utils/format.ts:151 | trimming first changes nothing the filter keeps |
| Format.FormatPlayerNameIdempotent | src/utils/format.ts:150-152 | formatting twice is formatting once |
| Format.ValidNameFixed | src/utils/format.ts:150-152 | a valid name is its own formatting |
| Format.ParseInt | src/utils/format.ts:161 | a number is found only when the text has a digit |
| Format.ParseIntAfterSpace | src/utils/format.ts:161 | leading whitespace does not change the result |
| Format.ParseIntReads | src/utils/format.ts:161 | after whitespace and an optional sign, a run of digits followed by a non-digit or the end is read as its value, negated for '-' |
| Format.ParseIntNoDigit | src/utils/format.ts:161 | with no digit after the whitespace and the optional sign the result is NaN |
| Format.ParseIntRendered | src/utils/format.ts:161 | parsing a rendered natural number gives it back |
| Format.FormatPort | src/utils/format.ts:159-165 | always a port in 1..65535 without leading zeros: the input's when it is in range, else "25565" |
| Format.FormatPortIdempotent | src/utils/format.ts:159-165 | a formatted port formats to itself |
| Format.RenderingUnique | src/utils/format.ts:159-165 | two digit strings without leading zeros that denote the same number are equal |
| Format.FirstMatch | src/utils/format.ts:176-188 | the first rule with a marker in the vendor, none when no rule has one |
| Format.SimplifyVendorFirstMatch | src/utils/format.ts:176-188 | the vendor becomes the name of the first matching rule in the listed order, else stays |
| Format.FormatJavaVersion | src/utils/format.ts:174-193 | "Java {version} {vendor} " followed by "64-bit" or "32-bit" |
| Player.ReasonCommandWords | src-tauri/src/commands/player.rs:72-112 | the command splits back into the verb, the name and (only when non-empty) the reason |
| Player.ReasonCommandInjective | src-tauri/src/commands/player.rs:72-112 | different names or reasons give different commands |
| Player.RetainedSpec | src-tauri/src/commands/player.rs:55 | exactly the entries whose name differs from the given one ignoring ASCII case are kept |
| Player.RetainedConcat | src-tauri/src/commands/player.rs:55 | the filter keeps the order of the entries |
| Player.RetainedAbsent | src-tauri/src/commands/player.rs:55 | a name no entry carries leaves the list as it is |
| Player.RetainedIdempotent | src-tauri/src/commands/player.rs:55 | filtering twice is filtering once |
| Player.Retain | src-tauri/src/commands/player.rs:55 | in place on an array: the first `n` slots hold the filtered list |
| Player.Reply | src-tauri/src/commands/player.rs:72-80 | "Sent: {cmd}" when the send succeeded, the send's error otherwise |
| Player.SendAndReply | src-tauri/src/commands/player.rs:72-80 | the reply of one send, and the handles after it |
| Player.BanPlayer | src-tauri/src/commands/player.rs:72-80 | sends "ban {name}" or "ban {name} {reason}" and replies accordingly |
| Player.UnbanPlayer | src-tauri/src/commands/player.rs:83-87 | sends "pardon {name}", propagating the send's error |
| Player.AddOp | src-tauri/src/commands/player.rs:90-94 | sends "op {name}", propagating the send's error |
| Player.RemoveOp | src-tauri/src/commands/player.rs:97-101 | sends "deop {name}", propagating the send's error |
| Player.KickPlayer | src-tauri/src/commands/player.rs:104-112 | sends "kick {name}" or "kick {name} {reason}" and replies accordingly |
| Player.AddToWhitelist | src-tauri/src/commands/player.rs:29-37 | fails, sending nothing else, when "whitelist add" fails; otherwise also sends "whitelist reload" and ignores its outcome |
| Player.RewriteWhitelist | src-tauri/src/commands/player.rs:45-67 | something is written exactly when the server is known and its `whitelist.json` parses, and then it is the filtered list, in that server's directory |
| Player.RemoveFromWhitelist | src-tauri/src/commands/player.rs:40-69 | always "Removed: {name}", whatever the command and file outcomes; sends "whitelist remove" then "whitelist reload", and rewrites the file as above |

## Left out

- Servers: JSON load and save of the registry, the EULA file write, the Windows window flag, the `sleep(500)` between polls, and the pipes and threads themselves. A reader thread is the explicit `ReaderAppend` call, one line at a time.
- Servers: the races between reader threads, status queries and `stop_server` (all operations run one at a time). This covers the branch at `server_manager.rs:200-203`, where the handle vanishes during the grace period because another call removed it.
- Servers.ServerManager.SendCommand: a write that succeeds but whose flush then fails counts as a failed write that put nothing on stdin, because the model keeps one outcome per command.
- Servers.ParentOf: follows `Path::parent`, whose parent of a bare file name is the empty path, so a server created from a bare jar name gets "" as its directory, not ".".
- Servers.ParentOf: Windows path prefixes (`C:`, `\\server\share`, `\\?\`) are read as ordinary components. A jar directly under a prefix and its root (`C:\a.jar`, `\\server\share\a.jar`) therefore gets the prefix without the root separator Rust keeps (`C:` here, `C:\` in Rust), and a drive-relative `C:a.jar` gets "" where Rust gives `C:`; jars in a directory below the root (`C:\srv\a.jar`) get the same parent as in Rust.
- Translation.Step, Translation.Interpolate, Locales, Language: translation trees and option maps hold only their own keys. In the source, `current[key]` and `options[name]` also find properties inherited from `Object.prototype`, so `t("constructor.name")` gives "Object" there and a `{toString}` placeholder is replaced even with no options; InterpolateVariablesNoOptions and the lookup lemmas hold for the source only when no key or placeholder names such a property.
- Update: the HTTP requests of `fetch_release` and `open_download_url`. The fetched release, or the network error, is a parameter of `CheckUpdate`/`UpdateInfoOf`.
- Update: `u64` overflow. A core or numeric identifier too large for `u64` fails to parse in the source; the model's `ParseU64` bounds it the same way.
- ConfigParser: the file system. File contents are strings, and a read or write failure is a parameter. `get_property_descriptions` is a constant table, not repeated entry by entry.
- Console, ContextMenu, Messages, Toasts, Themes: Vue reactivity. The stores are plain objects whose methods run one at a time.
- ContextMenu: `initContextMenuListener`, `cleanupContextMenuListener` and `handleItemClick` (an event subscription and an `invoke` to the back end), and the `console.log` calls.
- Messages, Toasts: the timers themselves. Each expiry is an explicit `Expire` call. A timer that fired keeps its spent handle in the source, and clearing it later has no effect; the model forgets it.
- Messages: the default durations come from `src/utils/constants.ts`, which is not part of this model; they are constructor parameters.
- Themes: `initializeThemes`, `ensureInitialized` and `resetThemes` (they load the built-in theme files through the bundler), and the `console.warn` on overwrite.
- Themes: keys inherited from `Object.prototype` and integer-like theme ids, which JavaScript orders before the others. Theme ids are ordinary string keys kept in insertion order.
- Locales, Language: `getTranslations`, `getLocaleRef`, `getAvailableLocales` and the method `isSupportedLocale` are plain reads of the state. Language files are discovered by the bundler; the discovered codes and trees are constructor parameters.
- Translation: option values are strings. `String(value)` of other values, and the `undefined`/`null` check, are modelled as the option being present or absent.
- I18nService: the callback closures (ids only; a call is recorded as a `LocaleChange`) and `get_locale`. The three tables hold the two entries per locale of the source.
- ServerStatus: the five status codes come from `src/utils/constants.ts`, which is not part of this model; they are a parameter, assumed distinct and non-empty. `getStatusText`'s translator is a parameter.
- Format: `formatBytes`, `formatDateTime`, `formatNumber`, `formatPercent` and `formatMemory` (floating point, dates and locale formatting).
- Format: numbers are integers. NaN, fractions and infinities are not modelled; `formatUptime` takes an integer number of seconds. `toLowerCase` is ASCII-only, and lengths count characters, not UTF-16 code units.
- Player: `get_whitelist`, `get_banned_players`, `get_ops` and `export_logs` (JSON file reads and a file write), and the `sleep(500)` of `add_to_whitelist`.
- Player.RewriteWhitelist: the file I/O and JSON serialisation of `remove_from_whitelist`. The parsed `whitelist.json` of a directory is a parameter (none when the file is missing, unreadable or malformed), and the list written is a result. A failure to serialise or write is ignored by the source and is not modelled.
