# Verified model of awesome-copilot's configuration tool and the game backend's simulation core

The repository holds two unrelated programs, and this Dafny project models the sequential core of each.

**The awesome-copilot configuration tool (JavaScript).** A user enables prompts, instructions and chat modes one by one, or through collections that bundle them. The tool then works out which items are effectively enabled.

- `config_manager.dfy` models `config-manager.js`:
  - coercion of loosely typed flags (`toBoolean`, `sanitizeSection`);
  - the structural repair of a loaded document (`ensureConfigStructure`);
  - the comment-header split (`splitHeaderAndBody`);
  - key sorting;
  - the section and name of a collection entry's path;
  - effective-state resolution (`computeEffectiveItemStates`): an explicit flag wins, then membership in an enabled collection (with the sorted list of those collections), then the default.
- `awesome_copilot.dfy` models the command-line layer of `awesome-copilot.js`:
  - `--config`/`-c` extraction and the trailing config path;
  - on/off tokens;
  - the closest-match suggestion and the context-size warning;
  - the `toggle` command for one item, for `all`, and for collections;
  - the collection delta report (newly enabled, newly disabled, blocked).
- `sorting.dfy` holds the sorts these use.
- `project_url.dfy` models the GitHub project URL parser of `scripts/test-project-url-parsing.js` and the workflow gate of `scripts/demo-project-sync-logic.js`. The regular expression is written out as a matcher.
- `task_parser.dfy` models the parser for task lists and the label and slug helpers of `scripts/create_issues_from_tasks.py`.
- `text.dfy` holds the string helpers these rely on: trimming, splitting and decimal and hex conversion.

**The game backend (Go).** A grid of square cells is simulated; players carry an inventory and equipment; bots keep each cell's population near a target; cells may be owned by other nodes.

- `spatial.dfy`: cell indexing, cell bounds, the 3×3 neighbourhood and squared distance.
- `items.dfy`: equipment slot masks and cooldown expiry.
- `inventory.dfy`: the inventory with its ID index, template cache and admission checks, plus the equipment slots.
- `player_manager.dfy`: equip, unequip, add and remove, with skill gates, cooldowns and version counters.
- `handovers.dfy`: the hysteresis predicate that decides when a player changes cell.
- `engine.dfy`: cell placement, player moves, bot spawning and removal, and the bot-density controller.
- `node_registry.dfy`: the cell-ownership table.
- `session.dfy`: resume tokens of the WebSocket transport.
- `cross_node_service.dfy`: the handover-token table.
- `sim_config.dfy`: start-up validation of the simulation parameters.
- `wrappers.dfy`: the `Option` and `Result` types.

Conventions:

- Go objects whose methods update fields are classes. Pure decision logic is written as functions, and each method is specified by them.
- Times are integers in milliseconds.
- Clock readings, random bytes, the file system and YAML parsing are parameters or injected functions.
- Go `float64` values are `real`.

The section key for chat modes is `chatmodes`, as the code spells it, not `chat-modes`.

## Model

| member | source | states |
|---|---|---|
| `ConfigManager.ToBoolean` | config-manager.js:93-105 | a string is false exactly when it is empty or trims and lower-cases to "false" (so "no" is true); every other value follows JavaScript truthiness, booleans passing through |
| `ConfigManager.SanitizedEntriesMeaning` | config-manager.js:85-88 | a sanitised section has the same keys in the same order, each mapped to the boolean reading of its old value, and nothing else |
| `ConfigManager.SanitizedSectionIdempotent` | config-manager.js:80-91 | sanitising a section twice gives what sanitising it once gives |
| `ConfigManager.SanitizeSection` | config-manager.js:80-91 | the copying loop returns the sanitised section; a missing or non-object section becomes the empty object |
| `ConfigManager.SanitizedAllBool` | config-manager.js:85-88 | a section whose values are already booleans comes through sanitising unchanged |
| `ConfigManager.FilledProject` | config-manager.js:67-70 | `output_directory` defaults to ".awesome-copilot" only when it is undefined; every other project key is kept |
| `ConfigManager.WithVersion` | config-manager.js:63-65 | the version is kept when truthy and becomes "1.0" otherwise; no other key changes |
| `ConfigManager.WithSection` | config-manager.js:73-75 | one section is replaced by its sanitised form; no other key changes and no key is lost |
| `ConfigManager.EnsureConfigStructure` | config-manager.js:60-78 | the result is always an object, whatever the input (the lemmas below state its contents) |
| `ConfigManager.EnsureConfigStructureDefaults` | config-manager.js:61-71 | the version is kept when truthy and defaults to "1.0"; the project becomes a copy of the input's project object (or an empty one) with its output directory defaulted |
| `ConfigManager.EnsureConfigStructureSections` | config-manager.js:73-75 | each of prompts, instructions, chatmodes and collections comes out as the sanitised form of the input's value, present or not |
| `ConfigManager.EnsureConfigStructureKeepsOthers` | config-manager.js:61 | every top-level key other than version, project and the four sections is carried over unchanged |
| `ConfigManager.EnsureConfigStructureKeys` | config-manager.js:61-75 | the input's keys keep their order, and version, project and every section are present afterwards |
| `ConfigManager.EnsureConfigStructureVersionTruthy` | config-manager.js:63-65 | the version left in place is always truthy |
| `ConfigManager.EnsureConfigStructureIdempotent` | config-manager.js:60-78 | applying the structure twice gives what applying it once gives |
| `ConfigManager.ReplaceSectionInShape` | config-manager.js:29-31 | a structured document with one section replaced by boolean entries goes through the structure step of `saveConfig` unchanged |
| `ConfigManager.IsHeaderLineByTrim` | config-manager.js:44-45 | a line is a header line exactly when, trimmed, it is empty or starts with "#" |
| `ConfigManager.HeaderCount` | config-manager.js:43-52 | the header is the longest prefix of header lines: every line before the count is one, the line at the count is not |
| `ConfigManager.SplitHeaderAndBody` | config-manager.js:38-58 | header, a newline when both parts are non-empty, and body give back the content; every header line is blank or a comment; the body is empty or starts with a line that is not |
| `ConfigManager.SortObjectKeys` | config-manager.js:117-128 | the result is an object holding exactly the input's entries (none for a missing or non-object input), ordered by the key comparison |
| `ConfigManager.CountEnabledItems` | config-manager.js:147-149 | null throws, and nothing else does; for an object the count is exactly the number of entries whose value is truthy (so all of them exactly when every value is truthy, none exactly when no value is); a string counts its characters; an absent section counts zero |
| `ConfigManager.CountTruthyIsCount` | config-manager.js:148 | the running count equals the size of the set of positions holding a truthy value, which is what `filter(Boolean).length` counts |
| `ConfigManager.SectionFromPathIff` | config-manager.js:271-280 | a path gets section s exactly when it contains s's directory followed by "/" and ends with s's extension, and no path gets two sections |
| `ConfigManager.ExtensionsExclusive` | config-manager.js:272-277 | no path ends with two different item extensions, so the order of the tests does not matter |
| `ConfigManager.ExtractItemNameOfSection` | config-manager.js:262-266 | for a path of a section, the item name followed by the section's extension is the path's basename, and the name has no slash |
| `ConfigManager.GrantingIff` | config-manager.js:186-204 | a collection grants an item exactly when one of its enabled entries loads and lists a path standing for that item |
| `ConfigManager.DisabledCollectionsGrantNothing` | config-manager.js:187-188 | a collection whose entries are all falsy grants no item, whatever its file lists |
| `ConfigManager.AddCollection` | config-manager.js:193-204 | after recording a collection, an item's list holds that collection exactly when one of its paths stands for the item, other entries unchanged, and no list gains a repeat |
| `ConfigManager.ResolvedEnabled` | config-manager.js:229-247 | an item is enabled exactly when its flag is `true`, or it is not `false` and some enabled collection lists it |
| `ConfigManager.EnabledMonotone` | config-manager.js:186-247 | with the same explicit flags, enabling more collections never disables an item |
| `ConfigManager.ResolveSection` | config-manager.js:216-253 | the reasons are keyed by exactly the catalog names, the enabled set lies inside them, and each item resolves by the precedence rules: explicit `true`/`false` first, then `collections` with the sorted, repeat-free list of exactly the granting collections, then `default` |
| `ConfigManager.ComputeEffectiveItemStates` | config-manager.js:166-257 | every one of the three item sections resolves every catalog item by the precedence rules and ignores configuration keys outside the catalog |
| `Sorting.SortBy` | config-manager.js:122-123 | the keys come out as a permutation of the input, ordered by the comparison whenever it is total |
| `Sorting.SortStrings` | config-manager.js:242 | the collection names behind a `via` list come out as a permutation of the input in character order |
| `AwesomeCopilot.StripFlags` | awesome-copilot.js:349-362 | the in-place splice loop ends with the arguments and path of the left-to-right reading: each `--config`/`-c` is removed with the argument after it, which becomes the path, and a flag in last position is an error |
| `AwesomeCopilot.ExtractConfigOption` | awesome-copilot.js:348-373 | returns exactly the flag-free arguments and path, with a trailing path-like argument then popped and used as the path |
| `AwesomeCopilot.StripLeavesNoFlags` | awesome-copilot.js:352-362 | no `--config` or `-c` is left among the remaining arguments |
| `AwesomeCopilot.StripWithoutFlags` | awesome-copilot.js:352-362 | arguments without a flag come back unchanged, with the default path |
| `AwesomeCopilot.LastConfigFlagWins` | awesome-copilot.js:358 | when several flags appear, the value after the last one is the path, and the arguments around the flags stay in order |
| `AwesomeCopilot.TrailingConfigFlagFails` | awesome-copilot.js:355-357 | a flag with no argument after it gives the "Missing configuration file" error |
| `AwesomeCopilot.TrailingPathIsConfig` | awesome-copilot.js:364-370 | a last argument ending in `.yml` or `.yaml` or holding a slash or backslash is taken as the path and removed |
| `AwesomeCopilot.IsConfigFilePath` | awesome-copilot.js:375-380 | true exactly when the text ends in `.yml` or `.yaml` or contains a `/` or a `\` anywhere |
| `AwesomeCopilot.ParseStateToken` | awesome-copilot.js:390-399 | on/enable/enabled/true/yes/y give true, off/disable/disabled/false/no/n give false, after lower-casing; every other word is an error |
| `AwesomeCopilot.ParseStateTokenIgnoresCase` | awesome-copilot.js:391 | the answer does not depend on letter case |
| `AwesomeCopilot.ParseStateTokenExamples` | awesome-copilot.js:392-398 | "ON" and "Yes" are on, "off" and "N" are off, "maybe" is refused |
| `AwesomeCopilot.ParseSectionComplete` | config-manager.js:8-13 | a section name is recognised exactly when it is one of the four configuration sections |
| `AwesomeCopilot.ValidateSectionType` | awesome-copilot.js:382-388 | accepted exactly when the lower-cased input names a section, which is then returned |
| `AwesomeCopilot.FindClosestMatch` | awesome-copilot.js:441-444 | none exactly when no candidate contains the target case-insensitively; otherwise the first candidate that does |
| `AwesomeCopilot.MaybeWarnAboutContext` | awesome-copilot.js:424-435 | a warning when the size reaches the section's limit, a heads-up from 0.8 of the limit up to it, and silence for a non-positive size or a section without a limit |
| `AwesomeCopilot.InstructionThresholds` | awesome-copilot.js:22-26 | for instructions (90000 characters) 71999 is silent, 72000 and 89999 give the heads-up and 90000 the warning; collections never warn |
| `AwesomeCopilot.BlockedItemsMeaning` | awesome-copilot.js:311-320 | an item is in the blocked list exactly when the collection lists it in that section and its reason afterwards is explicit `false` |
| `AwesomeCopilot.CollectBlocked` | awesome-copilot.js:302-326 | the loop returns the blocked list of one section, which is empty when the path helpers are missing from the export table |
| `AwesomeCopilot.ShippedBlockedAlwaysEmpty` | awesome-copilot.js:17-18 | with the export table of config-manager.js as written, every blocked list is empty |
| `AwesomeCopilot.ShippedBlockedMissesItem` | awesome-copilot.js:308-324 | a collection listing an explicitly disabled prompt reports it as blocked with the helpers exported, and reports nothing as written |
| `AwesomeCopilot.CorrectedBlockedReported` | awesome-copilot.js:302-326 | with the helpers exported, the reported list is the blocked list computed from the collection's paths |
| `AwesomeCopilot.CollectWhere` | awesome-copilot.js:280-299 | the collected items are exactly the members of the set that pass the test, without repeats |
| `AwesomeCopilot.NoneNewlyDisabled` | awesome-copilot.js:291-299 | when no section loses an enabled item, nothing is counted as newly disabled |
| `AwesomeCopilot.NoneNewlyEnabled` | awesome-copilot.js:280-288 | when no section gains an enabled item, nothing is counted as newly enabled |
| `AwesomeCopilot.SectionDelta` | awesome-copilot.js:276-330 | per section: the items enabled only afterwards with the collection in their reason, the items enabled only before with the collection in their before-reason, and the blocked items only when the collection was enabled and its file loads |
| `AwesomeCopilot.ShowCollectionDelta` | awesome-copilot.js:267-331 | nothing is reported when either state is missing; otherwise the three totals are the sums of the per-section counts over prompts, instructions and chatmodes |
| `AwesomeCopilot.ParseToggleArgs` | awesome-copilot.js:183-192 | the errors come in the source's order (flag, fewer than two arguments, unknown section, bad state word); on success the request carries the path, the section, the item and the state when a non-empty third argument gives one |
| `AwesomeCopilot.ToggleAll` | awesome-copilot.js:217-219 | every catalog item of the section takes the state and every other key keeps its value |
| `AwesomeCopilot.EditSection` | awesome-copilot.js:213-239 | `all` without a state and an unknown item are errors (the latter with the suggestion); otherwise the new state is the requested one or the negated truthiness of the current value, and only the toggled keys change |
| `AwesomeCopilot.SaveToggle` | awesome-copilot.js:205-241 | the saved document is the loaded one with only the toggled keys of the section changed; for a single item it is one property write into the section |
| `AwesomeCopilot.LoadedSectionAllBool` | config-manager.js:22-24 | every section of a loaded document holds only booleans |
| `AwesomeCopilot.WriteBack` | awesome-copilot.js:241 | putting the edited section back and structuring the document gives the loaded document with only the toggled keys changed |
| `AwesomeCopilot.ToggleSaved` | awesome-copilot.js:205-209 | structuring the edited copy changes nothing, so what is saved is exactly the loaded document with the edit applied |
| `AwesomeCopilot.ReportToggle` | awesome-copilot.js:245-259 | the report counts the truthy entries of the saved section and the catalog size, warns as MaybeWarnAboutContext does for the saved section, and for a single collection only reports the delta between the effective states of the loaded and the saved documents, in the toggle's direction |
| `AwesomeCopilot.CollectionDeltaAfterToggle` | awesome-copilot.js:202-259 | the delta is showCollectionDelta's three sums between the effective states of the loaded document and of the saved one, with the blocked items found through the corrected export table (the intended behaviour; see Findings); enabling a collection disables nothing, and disabling one enables nothing and blocks nothing |
| `AwesomeCopilot.ResolvedAgree` | config-manager.js:166-257 | two resolutions of the same section of the same document agree on the enabled set, on which collections each item comes from, and on the explicit `false` entries |
| `AwesomeCopilot.DeltaDetermined` | awesome-copilot.js:267-331 | the reported delta depends only on the two documents, not on which resolution of their effective states is taken |
| `AwesomeCopilot.CollectionToggleDirection` | awesome-copilot.js:203-257 | enabling a collection only grows each enabled set, disabling one only shrinks it |
| `AwesomeCopilot.HandleToggleCommand` | awesome-copilot.js:182-262 | each failure gives the source's error in its order (arguments, empty catalog, loading, `all` without a state, unknown item); on success the saved document, the counts and the context-size warning are those of the edit, and for a single collection the delta is the one between the effective states of the loaded and the saved documents, its blocked count found through the corrected export table |
| `ProjectUrl.ScopeAt` | scripts/test-project-url-parsing.js:13 | a scope found at a position is `users/` or `orgs/` spelled out there |
| `ProjectUrl.ScopeAtFinds` | scripts/test-project-url-parsing.js:13 | wherever `users/` or `orgs/` is spelled out, the scope is found |
| `ProjectUrl.TailAtSound` | scripts/test-project-url-parsing.js:13 | a matched tail is a non-empty owner without "/", then `/projects/`, then the longest run of digits |
| `ProjectUrl.TailAtComplete` | scripts/test-project-url-parsing.js:13 | every owner, `/projects/` and digits spelled out at a position is matched there, with at least those digits |
| `ProjectUrl.MatchAtSound` | scripts/test-project-url-parsing.js:13 | a match at a position spells out `github.com/`, the scope, the owner, `/projects/` and a maximal run of digits |
| `ProjectUrl.MatchAtComplete` | scripts/test-project-url-parsing.js:13 | wherever the pattern is spelled out, a match with that scope and owner and at least those digits is found |
| `ProjectUrl.FirstAtLeftmost` | scripts/test-project-url-parsing.js:12-14 | the unanchored search returns the leftmost position with a match, and none exactly when no position matches |
| `ProjectUrl.Search` | scripts/test-project-url-parsing.js:12-14 | a search result is a position with a match |
| `ProjectUrl.ParseProjectUrl` | scripts/test-project-url-parsing.js:8-35 | a failure carries the "Invalid project URL format" message with the URL; a success has a non-empty login without "/" |
| `ProjectUrl.ParseAcceptsIff` | scripts/test-project-url-parsing.js:12-21 | the parse succeeds exactly when the URL contains `github.com/`, `users` or `orgs`, `/`, a non-empty owner without "/", `/projects/` and a digit, anywhere in it |
| `ProjectUrl.ParseFields` | scripts/test-project-url-parsing.js:23-28 | the kind, login and number of a success come from one occurrence of the pattern, the number being the decimal value of its digits |
| `ProjectUrl.AcceptsUnanchored` | scripts/test-project-url-parsing.js:13 | text before and after an accepted URL does not make it rejected |
| `ProjectUrl.RejectedWithoutMatch` | scripts/test-project-url-parsing.js:16-21 | without a match at any "g" the parse fails |
| `ProjectUrl.ParsedFromFirstMatch` | scripts/test-project-url-parsing.js:23-28 | the fields come from the leftmost match |
| `ProjectUrl.ParsedWhole` | scripts/test-project-url-parsing.js:23-28 | a URL that is a prefix without "g" followed by the pattern parses to that pattern's kind, owner and number |
| `ProjectUrl.RejectedWithoutG` | scripts/test-project-url-parsing.js:48-50 | a URL without the letter "g" (the wrong-domain, "invalid-url" and empty cases) is rejected |
| `ProjectUrl.ValidUserExample` | scripts/test-project-url-parsing.js:40 | `.../users/AstroSteveo/projects/2` parses to user AstroSteveo, project 2 |
| `ProjectUrl.ValidOrgExample` | scripts/test-project-url-parsing.js:41 | `.../orgs/MyOrg/projects/1` parses to org MyOrg, project 1 |
| `ProjectUrl.ValidLongerNumberExample` | scripts/test-project-url-parsing.js:42 | `.../users/testuser/projects/123` parses to user testuser, project 123 |
| `ProjectUrl.MissingScopeRejected` | scripts/test-project-url-parsing.js:45 | a URL without `users/` or `orgs/` after the host is rejected |
| `ProjectUrl.SingularProjectRejected` | scripts/test-project-url-parsing.js:46 | `/project/` in place of `/projects/` is rejected |
| `ProjectUrl.MissingNumberRejected` | scripts/test-project-url-parsing.js:47 | `/projects/` not followed by a digit is rejected |
| `ProjectUrl.RejectsWithoutG` | scripts/test-project-url-parsing.js:45-50 | the failing test URLs other than the first three contain no "g" outside the host |
| `ProjectUrl.SimulateWorkflowLogic` | scripts/demo-project-sync-logic.js:8-59 | an empty URL or a missing token skips the job; otherwise an invalid URL fails with the format message and a valid one plans a query on the parsed kind with the other kind as fallback |
| `ProjectUrl.AcceptedParses` | scripts/test-project-url-parsing.js:12-14 | whenever the pattern occurs anywhere in the URL the search finds a match |
| `TaskParser.PhaseMatchShape` | scripts/create_issues_from_tasks.py:40 | a line is a phase heading exactly when it is "##", optional white space, then a title of the form "Phase", white space, digits, a dash and text; the captured title has that form |
| `TaskParser.TaskMatch` | scripts/create_issues_from_tasks.py:39 | a match captures an ID of the form "T-" and three digits and a non-empty title |
| `TaskParser.TaskMatchShape` | scripts/create_issues_from_tasks.py:39 | a line matches exactly when it is white space, a non-empty run of digits, ".", white space, a "T-" ID with three digits, white space, a hyphen or em dash and at least one more character |
| `TaskParser.PhaseTitleStartUnique` | scripts/create_issues_from_tasks.py:40 | the captured title starts right after the white space following "##", so the capture is unique |
| `TaskParser.TitleIsStrippedRest` | scripts/create_issues_from_tasks.py:39 | a task's title, stripped as the parser strips it, is the stripped text after the dash, whatever the non-greedy group left out |
| `TaskParser.NextHeading` | scripts/create_issues_from_tasks.py:62-67 | the description block ends at the first later phase or task line, or at the end |
| `TaskParser.TaskLines` | scripts/create_issues_from_tasks.py:48-77 | every task line before a position, in increasing order, each a task line |
| `TaskParser.TaskLinesComplete` | scripts/create_issues_from_tasks.py:55-76 | every task line outside a description block starts a task |
| `TaskParser.PhaseIsNearest` | scripts/create_issues_from_tasks.py:50-52 | a task's phase is the title of the nearest phase heading above it |
| `TaskParser.NoPhaseAbove` | scripts/create_issues_from_tasks.py:73 | a task with no phase heading above it has the empty phase |
| `TaskParser.FieldValueLast` | scripts/create_issues_from_tasks.py:94-103 | a field takes the text after the first colon, stripped, of the last line that starts with its key |
| `TaskParser.FieldValueDefault` | scripts/create_issues_from_tasks.py:83-90 | a field with no line of its own stays empty |
| `TaskParser.KeysExclusive` | scripts/create_issues_from_tasks.py:94-104 | no stripped line starts with two different field keys, so the order of the tests does not matter |
| `TaskParser.Clean` | scripts/create_issues_from_tasks.py:126 | the cleaned acceptance list has no more items than before, and none is empty or starts or ends with "-" or a space |
| `TaskParser.AcceptanceBullets` | scripts/create_issues_from_tasks.py:113-125 | the scan returns the bullets from the first acceptance line up to the first blank line after it |
| `TaskParser.BulletLine` | scripts/create_issues_from_tasks.py:119-125 | after the acceptance line a blank line stops the scan and any other line adds its bullet text, if it has one |
| `TaskParser.ExtractFields` | scripts/create_issues_from_tasks.py:81-127 | the loops return the fields of the block: the five keyed fields and the cleaned acceptance list |
| `TaskParser.BlockLines` | scripts/create_issues_from_tasks.py:68-92 | joining the description lines and splitting them again gives them back, less a trailing empty line |
| `TaskParser.CollectBlock` | scripts/create_issues_from_tasks.py:60-67 | the block is exactly the lines after its task line up to the next heading, and parsing resumes there |
| `TaskParser.ParseTask` | scripts/create_issues_from_tasks.py:55-76 | the record built for a task line has its ID, its stripped title, the current phase and the fields of its block |
| `TaskParser.TasksUpToLines` | scripts/create_issues_from_tasks.py:43-78 | the parsed list has one task per task line, in order, each the one that line starts |
| `TaskParser.ParseTasksWith` | scripts/create_issues_from_tasks.py:43-78 | the parsing loop returns the document's list of tasks |
| `TaskParser.ParseTasks` | scripts/create_issues_from_tasks.py:43-78 | one task per task line outside description blocks, in order, each as that line starts it |
| `TaskParser.PriorityLabel` | scripts/create_issues_from_tasks.py:211-219 | a label exactly when the lower-cased priority starts with high, medium or low, and then "priority:" with that word |
| `TaskParser.PriorityLabelIgnoresCase` | scripts/create_issues_from_tasks.py:212 | the label does not depend on letter case |
| `TaskParser.PhaseLabelMeaning` | scripts/create_issues_from_tasks.py:222-226 | a label exactly when the phase starts with "Phase", optional white space and a digit |
| `TaskParser.PhaseLabelDigits` | scripts/create_issues_from_tasks.py:223-225 | the label is "phase:" followed by the digits found there |
| `TaskParser.PhaseHeadingLabelled` | scripts/create_issues_from_tasks.py:40 | every phase a heading captures gets a phase label |
| `TaskParser.ReplaceRuns` | scripts/create_issues_from_tasks.py:230 | replacing each run of non-alphanumerics by one hyphen leaves only letters, digits and single hyphens |
| `TaskParser.TrimKeepsShape` | scripts/create_issues_from_tasks.py:230 | stripping the outer hyphens keeps that shape and leaves no hyphen at either end |
| `TaskParser.Slugify` | scripts/create_issues_from_tasks.py:229-231 | a slug has only lower-case letters, digits and single inner hyphens |
| `TaskParser.ReplaceRunsKeepsAlnums` | scripts/create_issues_from_tasks.py:230 | replacing the runs of other characters by hyphens keeps every ASCII letter and digit, in order, and adds nothing but hyphens |
| `TaskParser.SlugifyKeepsAlnums` | scripts/create_issues_from_tasks.py:229-231 | the slug without its hyphens is the lower-cased sequence of the text's ASCII letters and digits, so the slug is empty exactly when the text has none |
| `TaskParser.SlugifyIdempotent` | scripts/create_issues_from_tasks.py:229-231 | slugifying a slug changes nothing |
| `Spatial.WorldToCell` | backend/internal/spatial/spatial.go:16-19 | the cell indices are the floors of the coordinates divided by the cell size: each coordinate lies in `[index*size, (index+1)*size)` |
| `Spatial.FloorDivBounds` | backend/internal/spatial/spatial.go:18 | the floor of x divided by the cell size, times the size, is at most x, and the next multiple is above x |
| `Spatial.CellBounds` | backend/internal/spatial/spatial.go:21-28 | the bounds start at the index times the size and each span exactly one cell size |
| `Spatial.InsideCellIff` | backend/internal/spatial/spatial.go:48-52 | a point is inside a cell exactly when that cell is the one `WorldToCell` gives for it |
| `Spatial.SameCellIndex` | backend/internal/spatial/spatial.go:16-28 | a coordinate lies in only one cell interval |
| `Spatial.Neighbors3x3` | backend/internal/spatial/spatial.go:30-39 | nine cells with the centre in the middle |
| `Spatial.Neighbors3x3Members` | backend/internal/spatial/spatial.go:33-37 | a cell is in the neighbourhood exactly when both its indices differ from the centre's by at most one |
| `Spatial.Neighbors3x3Order` | backend/internal/spatial/spatial.go:33-37 | the cells come row by row, z outer and x inner, each strictly after the one before |
| `Spatial.Dist2` | backend/internal/spatial/spatial.go:41-46 | the squared distance is never negative and is zero for equal points |
| `Spatial.Dist2Symmetric` | backend/internal/spatial/spatial.go:41-46 | the squared distance does not depend on the order of the points |
| `Spatial.WorldToCellNegative` | backend/internal/spatial/spatial.go:18 | x = -0.1 with cell size 1 lies in cell -1, since the index is a floor and not a truncation |
| `Items.SlotBit` | backend/internal/sim/item.go:59-76 | the bit of a known slot is its mask constant, and every other slot name has no bit |
| `Items.Allows` | backend/internal/sim/item.go:58-78 | an item fits a slot exactly when the slot is one of the six known ones and the template's mask has that slot's bit |
| `Items.SlotMasksAreSingleBits` | backend/internal/sim/item.go:38-45 | the six masks are the successive single bits 1, 2, 4, 8, 16, 32, pairwise disjoint |
| `Items.HandsMaskAllows` | backend/internal/sim/item.go:58-78 | a template with the main-hand and off-hand bits fits exactly those two slots |
| `Items.ZeroMaskAllowsNothing` | backend/internal/sim/item.go:58-78 | a template with an empty mask fits no slot |
| `Items.CooldownExpiry` | backend/internal/sim/item.go:94-97 | the cooldown is active one millisecond before its end and not at its end, and stays active at every earlier instant |
| `Handovers.CrossedBeyondHysteresis` | backend/internal/sim/handovers.go:25-51 | a crossing is only ever reported between two different cells |
| `Handovers.CrossedMonotone` | backend/internal/sim/handovers.go:29-49 | a position far enough past the border for a hysteresis is far enough for any smaller one |
| `Handovers.CrossedLeavesCell` | backend/internal/sim/handovers.go:29-49 | with a positive hysteresis, a position reported as crossed lies outside the cell it came from |
| `Handovers.CrossedWithoutHysteresis` | backend/internal/sim/handovers.go:9-22 | with zero hysteresis, a player whose position lies in another cell has always crossed into that cell |
| `Handovers.HysteresisBoundaries` | backend/internal/sim/handovers_test.go:8-47 | with cell size 10 and hysteresis 2, 11.9 and -1.9 do not cross east, west, north or south while 12.0 and -2.0 do |
| `Handovers.DiagonalUsesX` | backend/internal/sim/handovers.go:29-33 | for a diagonal move only the x border is compared, so a position short of it in x does not cross whatever its z |
| `PlayerInventory.IndexedUnique` | backend/internal/sim/inventory.go:78 | an inventory whose index is consistent holds no instance ID twice |
| `PlayerInventory.BuildIndex` | backend/internal/sim/inventory.go:131-137 | the rebuilt index holds exactly the IDs of the items, each mapped to a position holding that ID |
| `PlayerInventory.BuildIndexIndexed` | backend/internal/sim/inventory.go:131-137 | without duplicate IDs the rebuilt index maps every item's ID to the item's own position |
| `PlayerInventory.Cache` | backend/internal/sim/inventory.go:112-129 | resolving an item's template caches it without changing the instance or compartment, and an item with a cached template is left as it is |
| `PlayerInventory.CacheStable` | backend/internal/sim/inventory.go:112-129 | after caching, the item resolves to the same template, even without the per-call templates, and caching again changes nothing |
| `PlayerInventory.CachingKeepsEntries` | backend/internal/sim/inventory.go:164-188 | the template caching done by the weight and bulk scans changes neither the items' instances and compartments nor the index |
| `PlayerInventory.TotalWeightCacheAll` | backend/internal/sim/inventory.go:178-188 | after a full scan has cached the templates, the total weight without per-call templates is what it was with them |
| `PlayerInventory.CompartmentBulkCached` | backend/internal/sim/inventory.go:163-176 | likewise for the bulk of a compartment |
| `PlayerInventory.TotalWeightAppend` | backend/internal/sim/inventory.go:181-186 | appending an item adds its weight times its quantity to the total, or nothing when its template does not resolve |
| `PlayerInventory.CompartmentBulkAppend` | backend/internal/sim/inventory.go:166-174 | appending an item adds its bulk times its quantity to its own compartment only |
| `PlayerInventory.AcceptedWithinLimits` | backend/internal/sim/inventory.go:190-223 | an item the check accepts is not a duplicate, and adding it keeps the total weight within the limit and its compartment's bulk within the cap |
| `PlayerInventory.SwapRemove` | backend/internal/sim/inventory.go:250-255 | removing by swapping with the last item leaves one item fewer |
| `PlayerInventory.SwapRemoveMultiset` | backend/internal/sim/inventory.go:250-255 | the remaining items are the old ones less exactly the removed item, as a multiset |
| `PlayerInventory.SwapRemoveUnique` | backend/internal/sim/inventory.go:243-261 | without duplicates before, there are none after and the removed ID is gone |
| `PlayerInventory.SwapRemoveKeeps` | backend/internal/sim/inventory.go:250-255 | every other item's ID is still held |
| `PlayerInventory.Equipment.constructor` | backend/internal/sim/inventory.go:36-41 | a new equipment set has no slot filled |
| `PlayerInventory.Equipment.GetSlot` | backend/internal/sim/inventory.go:43-46 | the equipped item of a filled slot, none for an empty one |
| `PlayerInventory.Equipment.IsSlotEmpty` | backend/internal/sim/inventory.go:48-52 | true exactly when the slot has no entry or its entry has an empty instance ID; an expired cooldown does not make a slot empty |
| `PlayerInventory.Equipment.IsSlotOnCooldown` | backend/internal/sim/inventory.go:54-58 | true exactly when the slot has an entry whose cooldown ends after `now` |
| `PlayerInventory.Equipment.SetSlot` | backend/internal/sim/inventory.go:60-66 | the slot holds the instance with cooldown end `now + cooldown`, so it is on cooldown exactly before that instant and empty exactly when the instance ID is empty; other slots are unchanged |
| `PlayerInventory.Equipment.ClearSlot` | backend/internal/sim/inventory.go:68-71 | the slot is removed, so it is empty and never on cooldown; other slots are unchanged |
| `PlayerInventory.Inventory.constructor` | backend/internal/sim/inventory.go:82-95 | an empty inventory with caps backpack 50, belt 10, craft bag 30, weight limit 100 and a consistent index |
| `PlayerInventory.Inventory.FindItem` | backend/internal/sim/inventory.go:139-145 | -1 exactly when no item has the ID, otherwise the position of the item that has it |
| `PlayerInventory.Inventory.HasItem` | backend/internal/sim/inventory.go:147-150 | true exactly when some item has the ID |
| `PlayerInventory.Inventory.SetTemplateCatalog` | backend/internal/sim/inventory.go:97-110 | the catalog is stored and, when present, caches its template on every item that has none |
| `PlayerInventory.Inventory.ResolveTemplate` | backend/internal/sim/inventory.go:112-129 | the template comes from the item's cache, then the per-call templates, then the catalog, and the item caches what was found |
| `PlayerInventory.Inventory.RebuildIndex` | backend/internal/sim/inventory.go:131-137 | the index becomes the rebuilt index of the items |
| `PlayerInventory.Inventory.GetCompartmentBulk` | backend/internal/sim/inventory.go:163-176 | the sum of bulk times quantity over the compartment's items whose template resolves; only those items get their template cached |
| `PlayerInventory.Inventory.GetTotalWeight` | backend/internal/sim/inventory.go:178-188 | the sum of weight times quantity over the items whose template resolves; every item gets its template cached |
| `PlayerInventory.Inventory.CanAddItem` | backend/internal/sim/inventory.go:190-223 | the error is the first of: duplicate ID, unknown template, total weight above the limit, compartment bulk above an existing cap; the items' instances and compartments do not change |
| `PlayerInventory.Inventory.AddItem` | backend/internal/sim/inventory.go:225-241 | on success the item is appended and indexed at the last position; on failure nothing is added or removed |
| `PlayerInventory.Inventory.RemoveItem` | backend/internal/sim/inventory.go:243-261 | an unknown ID fails and changes nothing; otherwise the item is swapped with the last one and dropped, the rest kept as a multiset, and the index rebuilt |
| `PlayerInventory.HasIdCached` | backend/internal/sim/inventory.go:112-129 | caching templates does not change which IDs are held |
| `PlayerInventory.AppendIndexed` | backend/internal/sim/inventory.go:237-238 | appending an item with a new ID and mapping that ID to the last position keeps the index consistent |
| `PlayerManager.Player.constructor` | backend/internal/sim/player_manager.go:43-55 | a player holds the given inventory, equipment and skills, with both versions at zero |
| `PlayerManager.SkillsMeetIgnoresExtras` | backend/internal/sim/player_manager.go:57-66 | skills the template does not require do not change whether the requirements are met |
| `PlayerManager.SkillsMeetMonotone` | backend/internal/sim/player_manager.go:59-63 | raising a skill level never loses a requirement that was met |
| `PlayerManager.EquipCheckPasses` | backend/internal/sim/player_manager.go:92-118 | an equip that passes validation concerns an item held in the inventory whose template is registered, allows the slot and has its skill requirements met, and the slot's cooldown is over |
| `PlayerManager.ReturnOutcome` | backend/internal/sim/player_manager.go:120-134 | a vacant slot gives no error; an occupant with an unknown template gives that error; otherwise the error is exactly the inventory's refusal of the occupant, wrapped as "cannot unequip old item" |
| `PlayerManager.EquipOutcome` | backend/internal/sim/player_manager.go:91-134 | the first failed validation is the answer; once validation passes, the answer is that of returning the displaced occupant, and no error means success |
| `PlayerManager.EquipIntoVacantSlot` | backend/internal/sim/player_manager.go:92-118 | into a vacant slot the equip succeeds exactly when the item is held, its template is known and allows the slot, the skills meet its requirements and any cooldown left on the slot is over |
| `PlayerManager.UnequipOutcome` | backend/internal/sim/player_manager.go:151-172 | the first failed check is the answer; once the checks pass, the error is exactly the inventory's refusal of the item, wrapped as "cannot add to inventory", and no error means success |
| `PlayerManager.UnequipAfterCooldown` | backend/internal/sim/player_manager.go:152-167 | an item equipped at instant t answers `EquipLocked` one millisecond before t + 2 s, and from t + 2 s on the unequip succeeds whenever the inventory accepts the item |
| `PlayerManager.PlayerManager.constructor` | backend/internal/sim/player_manager.go:16-21 | a new manager has no templates |
| `PlayerManager.PlayerManager.RegisterItemTemplate` | backend/internal/sim/player_manager.go:23-26 | the template is stored under its ID, replacing any earlier one |
| `PlayerManager.PlayerManager.CheckSkillRequirements` | backend/internal/sim/player_manager.go:57-66 | true exactly when every required skill is present at at least the required level |
| `PlayerManager.PlayerManager.AddItemToInventory` | backend/internal/sim/player_manager.go:68-80 | an unregistered template fails first; otherwise the inventory's own checks decide, the item is appended on success, and only success bumps the inventory version |
| `PlayerManager.PlayerManager.RemoveItemFromInventory` | backend/internal/sim/player_manager.go:82-89 | an unknown ID fails and changes nothing; otherwise exactly that item is gone, the rest kept as a multiset, and the inventory version goes up by one |
| `PlayerManager.PlayerManager.EquipItem` | backend/internal/sim/player_manager.go:91-149 | the error is EquipOutcome of the old state, so a success is exactly a passed validation and an accepted return of the occupant; on an error the items, the slots and the versions are unchanged; on success any previous occupant is back in the inventory, the item has left it, the slot holds it with a 2 s cooldown, and both versions go up by one |
| `PlayerManager.PlayerManager.ReturnOccupant` | backend/internal/sim/player_manager.go:120-134 | the error is ReturnOutcome of the old state; on an error the items are unchanged; without one, a vacant slot leaves the items as they were and an occupant is appended in the given compartment with its template; no item is lost |
| `PlayerManager.PlayerManager.FinishEquip` | backend/internal/sim/player_manager.go:136-148 | the item leaves the inventory by swap-removal, the slot holds it until now + 2 s, and both versions go up by one |
| `PlayerManager.PlayerManager.UnequipItem` | backend/internal/sim/player_manager.go:151-182 | the error is UnequipOutcome of the old state: an empty slot, a slot on cooldown, an unknown template or an inventory that refuses the item; on an error nothing changes; on success the item is appended, the slot cleared, and both versions go up by one |
| `NodeRegistry.WithoutOwner` | backend/internal/sim/node_registry.go:46-51 | exactly the assignments naming another node remain, each unchanged |
| `NodeRegistry.Owner` | backend/internal/sim/node_registry.go:63-73 | the owner of an assigned cell is its assignment, and every other cell belongs to the local node |
| `NodeRegistry.OwnerAfterAssign` | backend/internal/sim/node_registry.go:55-73 | assigning a cell changes the owner of that cell only |
| `NodeRegistry.OwnerAfterUnregister` | backend/internal/sim/node_registry.go:41-73 | unregistering a node hands exactly its cells back to the local node; every other cell keeps its owner |
| `NodeRegistry.UnregisteredOwnsNothing` | backend/internal/sim/node_registry.go:41-73 | after unregistering a node other than the local one, no cell is owned by it |
| `NodeRegistry.NodeRegistry.constructor` | backend/internal/sim/node_registry.go:25-31 | a registry for the given local node with no nodes and no assignments |
| `NodeRegistry.NodeRegistry.RegisterNode` | backend/internal/sim/node_registry.go:34-38 | the node is stored under its ID, replacing any earlier entry |
| `NodeRegistry.NodeRegistry.UnregisterNode` | backend/internal/sim/node_registry.go:41-52 | the node is forgotten and every cell assignment naming it is removed; nothing else changes |
| `NodeRegistry.NodeRegistry.AssignCell` | backend/internal/sim/node_registry.go:55-59 | the cell now belongs to the node, whether it is registered or not |
| `NodeRegistry.NodeRegistry.IsLocalCell` | backend/internal/sim/node_registry.go:63-87 | true exactly when the cell is unassigned or assigned to the local node |
| `NodeRegistry.NodeRegistry.GetCellOwner` | backend/internal/sim/node_registry.go:63-73 | the assigned node for an assigned cell, the local node for any other |
| `NodeRegistry.NodeRegistry.GetNodeInfo` | backend/internal/sim/node_registry.go:76-82 | the stored entry exactly when the ID is registered |
| `NodeRegistry.NodeRegistry.ListNodes` | backend/internal/sim/node_registry.go:97-106 | a copy equal to the node table |
| `Session.LookupEntry` | backend/internal/transport/ws/session.go:40-52 | the stored player exactly when the token is known and not past its expiry instant, ("", false) otherwise |
| `Session.AfterLookup` | backend/internal/transport/ws/session.go:47-49 | a token found expired is dropped and every other entry is kept as it was |
| `Session.Validates` | backend/internal/transport/ws/session.go:56-62 | true exactly when both arguments are non-empty and the token is live and names this player |
| `Session.IssuedTokenValidates` | backend/internal/transport/ws/reconnect_test.go:123-165 | a freshly issued token validates for its player until its expiry instant inclusive, never for another player, and not one millisecond later |
| `Session.ValidForOnePlayer` | backend/internal/transport/ws/session.go:56-62 | a token validates for at most one player at a time |
| `Session.ExpiredStaysGone` | backend/internal/transport/ws/session.go:47-49 | once a lookup has dropped an expired token, later lookups do not find it |
| `Session.DistinctBytesDistinctTokens` | backend/internal/transport/ws/session.go:30-35 | different random bytes give different tokens |
| `Session.ResumeManager.constructor` | backend/internal/transport/ws/session.go:23-25 | a manager with the given lifetime and no tokens |
| `Session.ResumeManager.Issue` | backend/internal/transport/ws/session.go:27-38 | a failed random read issues "" and stores nothing; otherwise the 32-digit hex form of the bytes is stored for the player with expiry now + ttl |
| `Session.ResumeManager.Lookup` | backend/internal/transport/ws/session.go:40-52 | answers as LookupEntry and leaves the table as AfterLookup |
| `Session.ResumeManager.Validate` | backend/internal/transport/ws/session.go:56-62 | answers as Validates; empty arguments leave the table untouched |
| `CrossNodeService.Validation` | backend/internal/sim/http_cross_node_service.go:94-109 | the stored record exactly when the token is known and not past its expiry; otherwise "expired" for a known token and "not found" for an unknown one |
| `CrossNodeService.AfterValidation` | backend/internal/sim/http_cross_node_service.go:103-106 | a token found expired is dropped and every other entry is kept as it was |
| `CrossNodeService.Acceptance` | backend/internal/sim/http_cross_node_service.go:63-91 | success exactly for a live token addressed to this node, carrying the resume token and this node's URL; a failure carries the validation error behind the "invalid handover token" prefix, or the wrong-node message |
| `CrossNodeService.Unexpired` | backend/internal/sim/http_cross_node_service.go:158-168 | exactly the tokens not past their expiry instant remain, unchanged |
| `CrossNodeService.CleanupIdempotent` | backend/internal/sim/http_cross_node_service.go:158-168 | cleaning up twice at the same instant removes nothing more |
| `CrossNodeService.CleanupKeepsValidation` | backend/internal/sim/http_cross_node_service.go:94-168 | cleanup changes neither which tokens validate nor the record they validate to |
| `CrossNodeService.IssuedTokenAccepted` | backend/internal/sim/http_cross_node_service.go:37-109 | a token just issued for this node is accepted until its 30 s expiry and refused one millisecond after |
| `CrossNodeService.HttpCrossNodeService.constructor` | backend/internal/sim/http_cross_node_service.go:27-34 | a service for the given node and port with no tokens |
| `CrossNodeService.HttpCrossNodeService.InitiateHandover` | backend/internal/sim/http_cross_node_service.go:37-60 | a failed random read fails and stores nothing; otherwise the record from this node to the target, issued now and expiring 30 s later, is stored under the hex form of the bytes |
| `CrossNodeService.HttpCrossNodeService.ValidateHandoverToken` | backend/internal/sim/http_cross_node_service.go:94-109 | answers as Validation and leaves the table as AfterValidation |
| `CrossNodeService.HttpCrossNodeService.AcceptHandover` | backend/internal/sim/http_cross_node_service.go:63-91 | answers as Acceptance with a freshly generated resume token, and leaves the table as AfterValidation |
| `CrossNodeService.HttpCrossNodeService.CleanupExpiredTokens` | backend/internal/sim/http_cross_node_service.go:158-168 | the table becomes Unexpired of the old table |
| `CrossNodeService.GenerateResumeToken` | backend/internal/sim/http_cross_node_service.go:149-155 | "" exactly when the random read fails; otherwise 32 hex digits that decode back to the bytes |
| `SimConfig.Message` | backend/cmd/sim/main.go:308-322 | each error message opens with the name of the parameter it rejects |
| `SimConfig.ValidateConfig` | backend/cmd/sim/main.go:307-324 | accepted exactly when every parameter is in range; otherwise the error is the first violated check, in the order cell size, AOI radius, tick rate, snapshot rate, hysteresis |
| `SimConfig.BoundaryValues` | backend/cmd/sim/main.go:307-324 | the smallest accepted values pass and a step past any one fails on that parameter |
| `SimConfig.FirstCheckWins` | backend/cmd/sim/main.go:308-310 | with every parameter out of range the cell size is reported |
| `SimEngine.BotIdsDistinct` | backend/internal/sim/engine.go:252 | bots numbered from the shared sequence get pairwise different IDs |
| `SimEngine.WithCell` | backend/internal/sim/engine.go:351-358 | an existing cell is kept as it is; a missing one is added empty; no other cell changes |
| `SimEngine.Moved` | backend/internal/sim/engine.go:360-369 | a move to the same cell changes nothing; otherwise the player leaves its old cell (if that exists) and enters the new one, created if needed, and no other cell changes |
| `SimEngine.DensityBounds` | backend/internal/sim/engine.go:190-201 | low is the floor of 0.8 target, high the ceiling of 1.2 target and ramp the ceiling of target / 10, with 0 <= low <= high and ramp >= 1 |
| `SimEngine.DensityBoundsTen` | backend/internal/sim/engine.go:183-201 | a target of 10 keeps cells within [8, 12] actors, adjusting by at most one per pass; the targets 1 and 25 give [0, 2] and [20, 30] |
| `SimEngine.SpawnBudget` | backend/internal/sim/engine.go:225-227 | a cell below the band may receive at most the missing number, at most ramp, and at most the global room left under the bot cap; a cell at or above low receives none |
| `SimEngine.MaintainedKeepsPlayers` | backend/internal/sim/engine.go:233-243 | the controller never removes a player: a cell inside the band is untouched and a cell above it loses bots only |
| `SimEngine.AddedOnlyBotsTrans` | backend/internal/sim/engine.go:228-232 | adding bots twice is adding bots: no entity is lost, and every entity is a bot or unchanged |
| `SimEngine.Engine.constructor` | backend/internal/sim/engine.go:49-63 | an engine with the given configuration and no cells, players or bots |
| `SimEngine.Engine.GetOrCreateCell` | backend/internal/sim/engine.go:351-358 | the cell table becomes WithCell of the old one |
| `SimEngine.Engine.MoveEntity` | backend/internal/sim/engine.go:360-369 | the cell table becomes Moved of the old one |
| `SimEngine.Engine.AddOrUpdatePlayer` | backend/internal/sim/engine.go:316-349 | the player record holds the new name, position and velocity and is owned by the cell containing the position; a new player is added to that cell, a known one is moved there from its owned cell |
| `SimEngine.Engine.CheckAndHandover` | backend/internal/sim/handovers.go:9-23 | the player changes cell only when its position lies in another cell beyond the hysteresis margin, and is then moved there; with zero hysteresis the owned cell is always the one containing the position |
| `SimEngine.Engine.SpawnBotInCell` | backend/internal/sim/engine.go:247-265 | the cell is created if missing; the spawn fails exactly when a positive bot cap is reached, and otherwise advances the sequence and adds the entity `BotId(botSeq)` as a bot to the cell and the bot table, overwriting any entity with that ID |
| `SimEngine.Engine.RemoveOneBotFromCell` | backend/internal/sim/engine.go:267-280 | succeeds exactly when the cell exists and holds a bot, and then removes one bot from the cell and the bot table; otherwise nothing changes |
| `SimEngine.Engine.CountActors` | backend/internal/sim/engine.go:215-224 | the numbers of players and of bots in the cell, which together are all its entities |
| `SimEngine.Engine.SpawnBots` | backend/internal/sim/engine.go:228-232 | at most n bots are added, only to this cell: no entity is lost and every entity afterwards is a bot or as it was; the sequence advances by the number spawned, which is exactly n (or 0 for n <= 0) when there is no cap or the cap leaves room for n; the bot table never grows past a positive cap |
| `SimEngine.Engine.RemoveBots` | backend/internal/sim/engine.go:236-242 | at most n entities are removed from this cell, all of them bots, and stopping short of n means no bot is left |
| `SimEngine.Engine.MaintainCell` | backend/internal/sim/engine.go:213-243 | one cell is brought towards the band as CellMaintained says, within the spawn budget and the bot cap, and no other cell changes; the returned total rises by the number of bots spawned and falls by the number removed; when the running total is at least the bot table's size, exactly the budgeted number of bots is spawned |
| `SimEngine.Engine.MaintainBotDensity` | backend/internal/sim/engine.go:185-245 | a non-positive target or a negative cap changes nothing; otherwise every cell is maintained within the band computed from the target, no cell appears or disappears, and a positive bot cap is never exceeded beyond the starting count |

## Left out

- File and process I/O:
  - reading and writing the configuration file;
  - the YAML parser and serializer;
  - the header generator;
  - directory listings (the catalog);
  - collection files;
  - `calculateSectionFootprint`.
  These enter as injected functions or values. Console output is not modelled.
- The copy and delete step that applies a resolved configuration to a project directory: `apply-config.js` is not part of this model.
- JavaScript values are modelled only as far as the configuration uses them:
  - arrays, NaN and number formatting are absent;
  - objects are ordered key lists;
  - `localeCompare` in `sortObjectKeys` is an injected comparison;
  - `toLowerCase` and Python's `lower` are ASCII lower-casing (`Text.LowerAscii`). The real ones also map non-ASCII letters, and a few of those (U+0130, U+212A) even to ASCII letters, so a non-ASCII input can compare differently;
  - strings are sequences of Unicode code points, while JavaScript strings are sequences of UTF-16 code units: a character outside the Basic Multilingual Plane counts twice in a JavaScript `length`, and the default `sort()` compares code units.
- Python's `splitlines` is modelled as a split on `\n`. The regex class `\s` is Python's full `str.isspace` set for text (`Text.IsPySpace`, Unicode white space included); `\d` is taken to be the ASCII digits only.
- `TaskParser.TaskMatch`: Python's `\d` also matches the other Unicode decimal digits (Arabic-Indic, fullwidth and so on); the model accepts only `0`-`9` in the list number and the task ID, so a line numbered with other decimal digits is rejected here and accepted by Python. `TaskParser.PhaseMatch` has the same gap for the phase number.
- `ConfigManager.SortObjectKeys`: a JavaScript object lists integer-like keys (such as "2" or "10") first, in ascending numeric order, and only then the other keys in insertion order. The model keeps every object as one ordered list in insertion order, so the sorted result and the position of a key added by `ConfigManager.Put` differ from JavaScript's order when a key is integer-like; the entries themselves are the same.
- `AwesomeCopilot.ValidateSectionType`: the source looks the lower-cased name up on a plain object, so "constructor" and "__proto__", which every object inherits, pass the check too; its callers then fail at `path.join(__dirname, meta.dir)` (config-manager.js:151-158) with a TypeError, since `meta.dir` is undefined. The model accepts only the four section names, so `AwesomeCopilot.ParseToggleArgs` and `AwesomeCopilot.HandleToggleCommand` report these two names as an unknown section where the source reaches that TypeError.
- `AwesomeCopilot.FindClosestMatch`: the case-insensitive containment folds only ASCII letters (see `toLowerCase` above), so a target or candidate with non-ASCII capitals can match in JavaScript and not in the model.
- `Sorting.LexLe`: orders strings by code point; JavaScript's default `sort()` orders by UTF-16 code unit, which differs only for characters outside the Basic Multilingual Plane compared with characters from U+E000 to U+FFFF.
- `create_issues_from_tasks.py` `main()`: it runs the GitHub CLI.
- `ProjectUrl.ParseProjectUrl`: the project number is the exact value of its digit run. The source reads it with `parseInt(projectNumber, 10)`, which gives a double: a number above 2^53 is rounded to a nearby double (9007199254740993 reads as 9007199254740992), and a run of 309 or more digits reads as `Infinity`. `ProjectUrl.SimulateWorkflowLogic` carries the same exact number.
- `ProjectUrl.SimulateWorkflowLogic`: the console logging of the workflow demo is dropped.
- Mutexes and concurrency throughout the Go code. Every operation is sequential. This also covers `ValidateHandoverToken` deleting an expired token while holding only a read lock, which is a data race outside a sequential model.
- Floating-point rounding:
  - weights and bulks are summed as exact reals;
  - the density band uses exact floor and ceiling;
  - coordinates are exact reals.
- `cellSize > 0` is required of `WorldToCell` callers, because a real division by zero has no Go-like infinite result.
- Encumbrance and movement penalty (`ComputeEncumbrance`, `GetPlayerEncumbrance`) and `GetEquippedItemStats`: floating-point arithmetic only.
- `GetCompartmentContents`, `GetItemTemplate`, `GetAllItemTemplates`, `CreateTestItemTemplates`, `InitializePlayer`: lookups, copies and fixed test data. The engine's calls to `InitializePlayer` and `SetTemplateCatalog` are not modelled.
- Player fields not involved in placement:
  - connection ID, sequence numbers and the pending cross-node handover;
  - the inventory, equipment and skills fields that `player_manager.go` uses but the shown `types.go` does not declare.
- Error values carry their kind and the offending name or value. The `%.2f`/`%d` formatting of values and the `%w` wrapping of the underlying random-read error are not modelled.
- `InitiateHandover` reads the clock twice. The model uses one reading for both `IssuedAt` and `ExpiresAt`.
- `RequestHandover`, `RegisterHandoverEndpoint` and `PlayerData`: HTTP and JSON. `GetLocalNodeID` is the constant field `localNodeId`.
- Engine:
  - bot positions, steering and bouncing (`updateBot`, `constrainBotWithinCell`), and the random number source;
  - cells hold entity kinds by ID rather than entity pointers, so pointer identity is not modelled;
  - the order in which the density controller visits cells is left open, as Go's map order is.
- `Spatial.Dist2`: states symmetry, non-negativity and the equal-points zero, but not that only equal points give zero.
- `SimConfig.ValidateConfig`: parameters are exact reals, so NaN does not occur. Go's `<=` and `<` comparisons are false for NaN, so the source accepts a NaN cell size, AOI radius or hysteresis.
- `SimEngine.Engine.SpawnBots`: does not state that the new entities are exactly the IDs `bot-(s+1)` to `bot-(s+n)` for the old sequence number s, nor an exact new cell size. The source does not make those IDs fresh: a player already named `bot-7` is overwritten by the seventh bot, which then changes its kind and leaves the size unchanged. What is stated is that no entity ID is lost, that every entity afterwards is a bot or unchanged, the exact number of spawns, and the new sequence number.
- `SimEngine.Engine.MaintainCell`: below the band the cell is stated to grow by at most the budget, not by exactly the budget, for the same reason as `SpawnBots`; the exact number of spawns is stated through the sequence number, provided the running total is at least the bot table's size.
- `SimEngine.Engine.MaintainBotDensity`: bounds are stated per cell. The running total is stated per cell only, not across the pass: across the pass it depends on Go's map iteration order and stays exact only while every bot in a cell is also in the bot table. A player whose ID equals a freshly generated bot ID would be overwritten by the bot, so no global "players are never removed" statement is made for the spawning side.

## Findings

| source | as written | input that shows it | evidently intended | confidence | as-written member | corrected member |
|---|---|---|---|---|---|---|
| awesome-copilot.js:17-18 | `extractItemName` and `getSectionFromPath` are imported from `config-manager.js`, whose export list (config-manager.js:282-294) does not include them, so the blocked computation (awesome-copilot.js:308-324) calls `undefined`, the `try` swallows the error, and the blocked list is always empty | enabling a collection that lists `prompts/a.prompt.md` while the prompt `a` is explicitly `false` | `a` is reported as blocked by its explicit override | not executed | `AwesomeCopilot.ShippedBlockedMissesItem` | `AwesomeCopilot.CorrectedBlockedReported` |
