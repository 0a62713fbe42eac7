# obsidian-tasks-x core, modelled in Dafny

This project models the core of the Obsidian Tasks plugin. It covers the following pieces.

- **Task lines.** The checklist-line codec of `Task` (`fromLine`, `toString`, `toFileLineString`). It also covers the status toggle with its next recurring occurrence, `filename` and `backlinkHref`.
- **Date properties.** The created and due date properties of `TaskProperties.ts`: their prefix-and-date matching and their markdown and rendered forms.
- **Queries.** The line-oriented query language of `Query.ts`: the `switch (true)` dispatch, every filter, limit, sort, group and hide line, and `applyQueryToTasks` up to grouping.
- **Task cache.** The in-memory branch of `Cache.ts`: the `Cold`/`Initializing`/`Warm` state, `indexFile` with its section and heading searches, and the delete and rename handlers.
- **Editor commands.** The toggle command's line rewriting and cursor adjustment, and the create/edit fallback parser.
- **SQL sources.** The source rewriting and comment directives of the SQL query classes `QuerySql` and `QueryX`.
- **Settings and logging.** The settings store and the feature-flag registry, and the log manager's longest-prefix level selection.

Everything is modelled with immutable datatypes and pure functions over `seq<char>`. Each JavaScript regex the core uses is written out as a matcher function, and lemmas tie each matcher to the language it accepts. Collaborators whose source is not part of this model enter as parameters:

- the status registry (`byIndicator`, `next`);
- the recurrence service (`fromText`, `toText`, `next`);
- the date parser (`chrono`/`moment`, returning `None` for an invalid moment);
- `Sort.by` and `Group.by`;
- the clock (`today`);
- the global settings that the code reads ambiently.

Modules, one per source concern:

| module | file | models |
|---|---|---|
| `Wrappers` | wrappers.dfy | `Option` and `Result` |
| `Text` | text.dfy | the JavaScript string operations the core uses (`trim`, `split`, `indexOf`, `includes`, `replace`, `toLowerCase`, `.length` in UTF-16 code units, line terminators) |
| `Dates` | dates.dfy | calendar dates, `YYYY-MM-DD` parsing and formatting, ordering |
| `Statuses` | status.dfy | statuses and the status registry |
| `Tasks` | tasks.dfy | `Priority`, the `Task` record and its constructor defaults, `filename`, `backlinkHref` |
| `TaskLine` | codec.dfy | `Task.fromLine` and `Task.toString` / `toFileLineString` |
| `RoundTrip` | roundtrip.dfy | decoding what the encoder writes |
| `Toggle` | toggle.dfy | `Task.toggle` |
| `Properties` | properties.dfy | `CreatedDateProperty`, `DueDateProperty` and their regular expressions |
| `Commands` | commands.dfy | `ToggleStatus.ts` and `CreateOrEdit.ts` |
| `Filtering` | filtering.dfy | one `filter` pass per query filter, as an AND of the filters |
| `QueryFilters` | query.dfy | the filters `Query.ts` pushes, and `applyQueryToTasks` |
| `Query` | query_parser.dfy | the `Query` constructor: line dispatch and every `parse*` method |
| `Cache` | cache.dfy | the task cache |
| `SqlSource` | sql.dfy | comment removal and the SQL rewriting shared by `QuerySql` and `QueryX` |
| `SqlQueries` | sql_query.dfy | the `QuerySql` and `QueryX` constructors and their directives |
| `Features` | features.dfy | `Feature` |
| `Settings` | settings.dfy | `Settings.ts` |
| `Logging` | logging.dfy | `LogManager` and `Logger` |

## Model

| member | source | states |
|---|---|---|
| Tasks.Code | src/Task.ts:22-27 | the enum's string value as a number: always one of 1 to 4 |
| Tasks.CodeInjective | src/Task.ts:15-27 | two priorities have the same code exactly when they are the same priority, so comparing codes orders High, Medium, None, Low strictly |
| Tasks.Construct | src/Task.ts:159-180 | a missing status becomes `Status.TODO`, a missing description, path or indentation becomes `''`, a missing preceding header becomes `''`; every other field is taken from the arguments unchanged |
| Tasks.Filename | src/Task.ts:191-198 | a name is returned exactly when the path ends in `.md` after a non-empty run without `/`; the name is that run, the path ends with it plus `.md`, and it starts the path or follows a `/` |
| Tasks.FilenameOfPath | src/Task.ts:191-198 | for a folder, a `/`, a non-empty slash-free name and `.md`, the file name is that name |
| Tasks.BacklinkHref | src/Task.ts:215-221 | the link starts with the path; it is the path alone without a heading, and the path followed by `#` and the heading otherwise |
| Features.Values | src/Config/Feature.ts:78-80 | every listed feature is declared, every declared feature except `TASK_STATUS_MENU` is listed, and `TASK_STATUS_MENU` is not |
| Features.FlagsOfKeys | src/Config/Feature.ts:82-89 | the flag object's keys are exactly the internal names of the listed features |
| Features.FlagsOfLast | src/Config/Feature.ts:82-89 | a listed feature whose name no later feature repeats has a flag, and the flag holds that feature's `enabledByDefault` |
| Features.SettingsFlags | src/Config/Feature.ts:82-89 | each listed feature's name maps to its `enabledByDefault`; every key is a listed feature's name; `TASK_STATUS_MENU` has no flag |
| Features.DeclaredNamed | src/Config/Feature.ts:24-67 | finds the declared static feature with that internal name, and finds none only when no declared feature has it |
| Features.FromStringAsWritten | src/Config/Feature.ts:98-109 | the class-object lookup as written: a feature it returns has that internal name, and it throws exactly when the name is neither a feature nor another truthy class member |
| Features.FromStringAcceptsNonFeature | src/Config/Feature.ts:98-109 | `fromString("values")` succeeds although no feature is named `values` |
| Features.FromString | src/Config/Feature.ts:91-109 | the documented contract: succeeds exactly for the internal name of a declared feature and returns that feature; `RangeError` otherwise |
| Features.FromStringToJson | src/Config/Feature.ts:98-117 | `fromString` inverts `toJSON` on every declared feature |
| Settings.Defaults | src/Config/Settings.ts:21-33 | empty global filter, `setDoneDate` on, `removeGlobalFilter` off, the features' default flags, and general settings mirroring the three fields |
| Settings.GetSettings | src/Config/Settings.ts:37-46 | afterwards every default flag name has a flag; stored flags keep their values; a flag that was missing gets its default; nothing else changes |
| Settings.Merge | src/Config/Settings.ts:48-49 | each supplied field replaces the stored one and each unsupplied field is kept |
| Settings.UpdateSettingsShallow | src/Config/Settings.ts:48-52 | after `updateSettings` the supplied fields win and the rest are kept; the flags it ends with include the merged flags unchanged |
| Settings.UpdateGeneralSettingStores | src/Config/Settings.ts:54-55 | the general settings hold the new value under its name and keep every other entry |
| Settings.UpdateGeneralSettingSyncs | src/Config/Settings.ts:54-63 | afterwards `globalFilter`, `removeGlobalFilter` and `setDoneDate` equal their general-settings entries, and status types and heading state are unchanged |
| Settings.UpdateGeneralSettingFields | src/Config/Settings.ts:54-63 | the whole result: the new general settings, the three mirrored fields read from them, everything else but the flags unchanged |
| Settings.ToggleFeature | src/Config/Settings.ts:69-72 | the toggled flag reads as the new value, every other flag reads as before, the flag key set gains only that name |
| Settings.MissingFlagDisabled | src/Config/Settings.ts:65-67 | a feature without a stored flag reads as disabled |
| Logging.Configure | src/lib/logging.ts:47-50 | the options become the supplied ones, `minLevels` replaced whole; the registration flag and listeners are kept |
| Logging.OnLogEntry | src/lib/logging.ts:66-69 | one more listener |
| Logging.RegisterConsoleLogger | src/lib/logging.ts:71-102 | afterwards the console logger is registered; a listener is added only when it was not registered before; options unchanged |
| Logging.RegisterIdempotent | src/lib/logging.ts:44-72 | registering the console logger twice is the same as registering it once |
| Logging.GetLogger | src/lib/logging.ts:52-64 | the logger's threshold is the level of the chosen key (the longest key the module name starts with, the later one on a tie), and 99 (`none`) when no key matches |
| Logging.SelectLevelChoice | src/lib/logging.ts:53-61 | the `for…in` loop ends with `none` when no key matches, and otherwise with the level and key of the unique chosen entry, which exists |
| Logging.SelectLevelFrom | src/lib/logging.ts:56-61 | the loop invariant: after the entries before `i` the carried pair is the chosen entry among them, or the initial pair when none matched |
| Logging.ChosenUnique | src/lib/logging.ts:57 | the `>=` comparison picks at most one entry: the chosen index is unique |
| Logging.LevelToInt | src/lib/logging.ts:123-145 | the value is one of 1 to 5 or 99, and the table's number for a lower-cased level name |
| Logging.LevelToIntIgnoresCase | src/lib/logging.ts:142-145 | a level name and its lower case map to the same number |
| Logging.NamedLevels | src/lib/logging.ts:123-129 | `trace` to `error` map to 1 to 5 in that order, and `none` maps to 99 |
| Logging.Log | src/lib/logging.ts:152-171 | an entry is emitted exactly when the level's number reaches the logger's threshold, with the level, the module name and the message |
| Logging.UnmatchedModuleIsSilent | src/lib/logging.ts:52-64 | a module no key starts gets threshold 99 and its logger emits nothing from the five level methods |
| Logging.ThresholdMonotone | src/lib/logging.ts:153-154 | whatever a logger with a higher threshold emits, one with a lower threshold emits too |
| Logging.InitialIsInfo | src/lib/logging.ts:38-64 | with the initial options every module logs at `info`: `debug` is dropped and `warn` kept |
| Toggle.NewStatus | src/Task.ts:719-722 | the explicit status when one is given, else the registry's next status |
| Toggle.NewDoneDate | src/Task.ts:724-737 | a done date exactly when the new status is completed and `setDoneDate` is on, and then it is today |
| Toggle.NextOccurrence | src/Task.ts:739-742 | an occurrence only when the new status is completed and the task recurs, and then the recurrence's next dates; none otherwise |
| Toggle.Toggle | src/Task.ts:718-768 | one or two tasks, the toggled task last: it differs from the task only in its status (the explicit or next one) and its done date (today exactly when completed with `setDoneDate` on). A second task exists exactly when there is a next occurrence; it comes first, is the task with the occurrence's dates and an empty block link |
| Toggle.ToggleToOpen | src/Task.ts:718-768 | toggling to a status that is not completed yields only the task with that status and no done date |
| Toggle.ToggleBack | src/Task.ts:718-768 | for an open, undated, non-recurring task, toggling to a status and then back to the old status gives the task back |
| Toggle.NextKeepsStatus | src/Task.ts:753-762 | the next occurrence keeps the original status and done date, and the toggled task is completed |
| Dates.ParseFormat | src/Task.ts:644 | formatting a date with four-digit year and two-digit month and day gives `YYYY-MM-DD` text that parses back to the same date |
| Dates.FormatParse | src/Task.ts:65-68 | parsing `\d{4}-\d{2}-\d{2}` text and formatting the date reproduces the text |
| TaskLine.MatchTaskLine | src/Task.ts:57 | a match captures the leading whitespace as indentation, followed by `-` or `*`; the status character and the body hold no line terminator and the body is part of the line; a line whose first non-space character is not `-` or `*` does not match |
| TaskLine.MatchTaskLineOfItem | src/Task.ts:57 | `indentation- [c] body` matches with exactly that indentation, status character and body |
| TaskLine.MatchPriority | src/Task.ts:369-381 | a priority is read exactly when the text ends in one of the three markers: ⏫ High, 🔼 Medium, 🔽 Low; never None |
| TaskLine.MatchDateSuffix | src/Task.ts:65-68 | a match exactly when the text ends in a marker, an optional space and `YYYY-MM-DD`; the date is the parse of the last ten characters and the match starts at the marker |
| TaskLine.MatchRecurrence | src/Task.ts:69 | a match ends the text with 🔁, an optional space and a non-empty run of `[a-zA-Z0-9, !]` (case-insensitive), which is the capture |
| TaskLine.MatchBlockLink | src/Task.ts:60 | a match is a space, `^` and a non-empty run of `[a-zA-Z0-9-]` ending the text |
| TaskLine.StepPriority | src/Task.ts:369-385 | without a priority at the end nothing changes; with one, it is recorded, removed, the rest trimmed, and the pass marked as matched |
| TaskLine.StepDate | src/Task.ts:387-413 | without its field's date token at the end nothing changes; with one, the date is recorded in its field, the token removed and the rest trimmed |
| TaskLine.StepRecurrence | src/Task.ts:415-426 | without a rule at the end nothing changes; with one, the rule text is read with the start, scheduled and due dates found so far, and the token is removed |
| TaskLine.Pass | src/Task.ts:367-428 | one iteration of the do-while: when nothing matched the description and fields are unchanged, otherwise the description got shorter |
| TaskLine.StripLoop | src/Task.ts:364-429 | the loop runs at most 8 passes (`runs <= 7` checked after the increment) and stops before 8 only after a pass that matched nothing; the description never grows |
| TaskLine.HashTagMatches | src/Task.ts:78 | each match is part of the description and is `#…` or one whitespace character followed by `#…` |
| TaskLine.TagsOf | src/Task.ts:436-437 | there are no more tags than matches, and every tag starts with `#` |
| TaskLine.TagsOfMembers | src/Task.ts:436-437 | the tags are exactly the trimmed matches that differ from the global filter: every tag is one, and every such match yields a tag |
| TaskLine.TagsInDescription | src/Task.ts:431-438 | every tag starts with `#` and occurs in the description, which tag extraction leaves as it is |
| TaskLine.StripBlockLink | src/Task.ts:341-346 | without a block link the description is kept and the link is `''`; with one, the link is the ` ^id` suffix and the description is the trimmed rest |
| TaskLine.CreatedOf | src/Task.ts:350 | the created-date property is the one constructed from the description text |
| TaskLine.ReadTags | src/Task.ts:435-438 | every tag starts with `#` and occurs in the description |
| TaskLine.ReadBody | src/Task.ts:339-438 | the block link is `''` or starts with ` ^`, and every tag occurs in the final description |
| TaskLine.FromLine | src/Task.ts:294-462 | null when the line is not a checklist item or its trimmed body lacks the global filter, a task otherwise; the task has the captured indentation, the registry's status for the lower-cased status character, the given path, section and heading, the line as original markdown, a block link `''` or ` ^…`, and tags occurring in its description |
| TaskLine.WithGlobalFilter | src/Task.ts:604-615 | the description joined with the global filter, in front or appended, is trimmed |
| TaskLine.PrioritySegment | src/Task.ts:622-634 | no priority text when the priority is None or hidden |
| RoundTrip.PriorityOnToken | src/Task.ts:622-634 | the priority pattern reads exactly the priority token the encoder writes, and no other token |
| RoundTrip.DateOnToken | src/Task.ts:641-667 | each date pattern reads exactly a date token of its own field, at its marker, and no other token |
| RoundTrip.RecurrenceOnToken | src/Task.ts:636-639 | the recurrence pattern reads exactly a rule token, capturing its text |
| RoundTrip.BlockLinkOf | src/Task.ts:669-670 | the block-link pattern matches an appended ` ^id` where it starts |
| RoundTrip.StepPriorityStrips | src/Task.ts:369-385 | a priority token at the end is recorded and stripped, leaving the text of the tokens before it |
| RoundTrip.StepPriorityKeeps | src/Task.ts:369-370 | the priority step leaves the state alone when the last token is not a priority |
| RoundTrip.StepDateStrips | src/Task.ts:387-413 | a date token of the step's field at the end is recorded and stripped |
| RoundTrip.StepDateKeeps | src/Task.ts:387-413 | a date step leaves the state alone when the last token is not of its field |
| RoundTrip.StepRecurrenceStrips | src/Task.ts:415-426 | a rule token at the end is read with the dates found so far and stripped |
| RoundTrip.StepRecurrenceKeeps | src/Task.ts:415-416 | the recurrence step leaves the state alone when the last token is not a rule |
| RoundTrip.PassFull | src/Task.ts:367-428 | on an encoded trail with something after the priority, one pass strips done, due, scheduled, start and recurrence in that order and leaves the priority |
| RoundTrip.LoopRecovers | src/Task.ts:364-429 | on an inert description followed by any encoded trail, the loop recovers every field and leaves exactly the description, within three passes |
| RoundTrip.SegmentsRender | src/Task.ts:622-667 | the priority, recurrence and date segments of the default rendering are the trail's tokens rendered in order |
| RoundTrip.ToStringOf | src/Task.ts:601-673 | with the global filter in front, the default rendering is the filter and description, then created date, the trail and the block link |
| RoundTrip.CleanOf | src/Task.ts:321-329 | cleaning removes the global filter in front and the space after it, and nothing else |
| RoundTrip.StripLinkOf | src/Task.ts:341-346 | the block link, when present, is split off and the rest is left as it was |
| RoundTrip.CreatedStripped | src/Task.ts:348-351 | the created date is read back from its segment, and removing its markdown leaves the text the loop starts from |
| RoundTrip.ReadBodyOf | src/Task.ts:325-438 | the body steps of `fromLine` on an encoded body recover the description, block link, created date, priority and the four dates; the rule is read back with the recovered dates |
| RoundTrip.EncodedLineParts | src/Task.ts:682-684 | `toFileLineString` gives a checklist item with the task's indentation, its status character and the encoded body, which is trimmed and holds the global filter |
| RoundTrip.DecodeEncoded | src/Task.ts:294-462 | decoding `toFileLineString(t)` gives a task with t's indentation, status (through the registry), description, priority, start, scheduled, due, done and created dates, block link, and its rule read back |
| Properties.Exec | src/TaskProperties.ts:64 | `RegExp.exec`: the match found starts at the leftmost position where the pattern matches, and no match means none at any position |
| Properties.MatchSound | src/TaskProperties.ts:120-135 | the backtracking matcher only ends a match on text the pattern's language accepts |
| Properties.MatchComplete | src/TaskProperties.ts:120-135 | wherever text of the pattern's language occurs, the matcher finds a match there |
| Properties.LocationIsMatchStart | src/TaskProperties.ts:66 | `value.indexOf(match[0])` is the match's own start, since no earlier occurrence of the matched text can exist |
| Properties.TailMatched | src/TaskProperties.ts:129 | a mandatory tail of the pattern consumes the last characters of the match one by one |
| Properties.NewCreated | src/TaskProperties.ts:31-52 | a blank created property: one prefix, which is the default, a space spacer and no value |
| Properties.NewDue | src/TaskProperties.ts:145-164 | a blank due property: three prefixes, the first the default, and no value |
| Properties.PrefixAtoms | src/TaskProperties.ts:120-127 | the due prefix is always a character class; the created pattern has no prefix only when the single prefix and spacer are empty |
| Properties.Pattern | src/TaskProperties.ts:120-135 | the compiled pattern, when there is one, ends with the ten date atoms followed by the suffix class |
| Properties.CaptureIsDate | src/TaskProperties.ts:64-68 | in every match the ten characters before the suffix are `YYYY-MM-DD` text |
| Properties.AssignText | src/TaskProperties.ts:62-70 | assigning a string: no match leaves the property as it is; a match sets the date parsed from the capture, and the location and length of the match in UTF-16 code units, as `indexOf` and `.length` count them |
| Properties.Construct | src/TaskProperties.ts:78-86 | no argument or `''` leaves the blank property; a date sets the value; a non-empty string is assigned as text |
| Properties.DateText | src/TaskProperties.ts:110-117 | the `date` helper formats a value as `YYYY-MM-DD`; without a value the created helper gives `''` and the due helper throws |
| Properties.MarkdownString | src/TaskProperties.ts:99-108 | the markdown starts with the escaped default prefix and fails exactly when the date helper does |
| Properties.RenderedString | src/TaskProperties.ts:88-97 | the short form is the escaped prefix alone, the long form the markdown string |
| Properties.EscapePlain | src/TaskProperties.ts:45-50 | Handlebars' escaping leaves text without `&<>"'`=` as it is |
| Properties.CreatedPattern | src/TaskProperties.ts:120-129 | the created pattern is the prefix, an optional spacer, and the date |
| Properties.DuePattern | src/TaskProperties.ts:222-229 | the due pattern is one class made of the three prefixes joined, space included, then the date |
| Properties.CreatedExec | src/TaskProperties.ts:120-129 | in text with no ➕ before `➕ YYYY-MM-DD`, the match is those twelve characters |
| Properties.CreatedFindsFirstMarker | src/TaskProperties.ts:62-70 | assigning such text sets the date, the location of the marker as the UTF-16 length of the text before it, and length 12 |
| Properties.CreatedAbsent | src/TaskProperties.ts:62-70 | text without ➕ leaves the created property blank |
| Properties.MarkdownOfCreated | src/TaskProperties.ts:99-108 | the created markdown of a date is `➕ YYYY-MM-DD` |
| Properties.ReplaceCreatedDate | src/TaskProperties.ts:62-70 | replacing the created markdown read from a text with that of another date changes only the date |
| Properties.CreatedMarkdownRoundTrip | src/TaskProperties.ts:62-70 | reading back the created markdown of a date gives the date |
| Properties.DueExec | src/TaskProperties.ts:222-229 | in `📅 YYYY-MM-DD` the due match starts at the space, which the class holds |
| Properties.DueAssign | src/TaskProperties.ts:171-178 | assigning `📅 YYYY-MM-DD` stores the date at location 2, after the marker's two UTF-16 code units, with length 11 |
| Properties.DueMatchAt | src/TaskProperties.ts:222-229 | from the space on, the due pattern matches the eleven characters to the end |
| Properties.DueNoMatchAtMarker | src/TaskProperties.ts:222-229 | the due pattern does not match at the marker itself |
| Properties.DueMarkdownRoundTrip | src/TaskProperties.ts:171-179 | reading back the due markdown of a date gives the date |
| Properties.CreatedPrefixAsWritten | src/TaskProperties.ts:34-35 | with the prefix as the file spells it, the markdown of a date is not `➕ YYYY-MM-DD`, and `➕ YYYY-MM-DD` text is not read |
| Properties.DuePrefixAsWritten | src/TaskProperties.ts:148-149 | with the prefixes as the file spells them, the due markdown of a date is not `📅 YYYY-MM-DD` |
| Commands.FileLines | src/Commands/CreateOrEdit.ts:30 | one file line per task, in order, each the task's `toFileLineString` |
| Commands.OnSubmitSplits | src/Commands/CreateOrEdit.ts:29-32 | splitting the written text at newlines gives back each task's line, when no line holds a newline |
| Commands.ListBullet | src/Commands/ToggleStatus.ts:78-79 | the line is a list item exactly when its first non-whitespace character is `-` or `*`, which is where the bullet is |
| Commands.ToggleLine | src/Commands/ToggleStatus.ts:50-90 | a line that decodes to a task (section 0, index 0, no heading) is replaced by the toggled tasks' lines; any other line by the non-task rewrite |
| Commands.ToggleNonTask | src/Commands/ToggleStatus.ts:63-86 | a checklist item keeps indentation and body and takes `- [indicator] `; a list item gets ` [indicator]` after its bullet; plain text gets `- ` after its indentation; the indentation is always kept |
| Commands.TextBecomesListItem | src/Commands/ToggleStatus.ts:82-85 | toggling plain text makes a list item with the same indentation |
| Commands.ListItemBecomesChecklist | src/Commands/ToggleStatus.ts:78-81 | toggling a list item makes a checklist item with the same indentation and the indicator as status |
| Commands.ChecklistKeepsBody | src/Commands/ToggleStatus.ts:99-111 | toggling a checklist item that is not a task keeps indentation and body and sets the indicator |
| Commands.CursorColumn | src/Commands/ToggleStatus.ts:39-47 | the cursor moves only when the new line has a character outside ` []*-`, and then by the change in the line's UTF-16 length, the unit of the editor's columns |
| Commands.CursorFollowsText | src/Commands/ToggleStatus.ts:39-85 | for a list item or text line, a cursor whose UTF-16 column stands before a text character moves to the UTF-16 column before the same character in the new line |
| Commands.MatchNonTask | src/Commands/CreateOrEdit.ts:59-90 | the regex of the fallback always matches: the indentation is the leading whitespace, the status and the description hold no line terminator |
| Commands.MatchNonTaskOfItem | src/Commands/CreateOrEdit.ts:59 | on `indentation- [c] description` it captures exactly those parts |
| Commands.LineBlockLink | src/Commands/CreateOrEdit.ts:92-93 | the block link of the line is `''` or a ` ^…` suffix of it |
| Commands.WithoutBlockLink | src/Commands/CreateOrEdit.ts:95-97 | without a block link the description is unchanged; otherwise the ` ^…` suffix is removed and the rest is a prefix of it |
| Commands.FallbackAsWritten | src/Commands/CreateOrEdit.ts:57-119 | the fallback task as written: no priority, dates, rule or tags; created today; the captured status (or `' '`); the path; no heading |
| Commands.FallbackAsWrittenDuplicatesLink | src/Commands/CreateOrEdit.ts:59-97 | on `- [ ] ^id` the block link is ` ^id` and the description still holds `^id`, so the link is written twice |
| Commands.Fallback | src/Commands/CreateOrEdit.ts:57-119 | the same task fields, with the block link read from the captured description so that description and block link together are the captured text |
| Commands.FallbackOfItem | src/Commands/CreateOrEdit.ts:87-119 | `indentation- [c] description ^id` falls back to a task with that indentation, the status of `c`, that description and block link ` ^id` |
| Commands.FallbackOf | src/Commands/CreateOrEdit.ts:87-119 | a captured description ending in a block link is split into description and link |
| Commands.TaskFromLine | src/Commands/CreateOrEdit.ts:43-56 | the decoded task when the line decodes, otherwise the corrected fallback of Findings row 4 |
| QueryFilters.LocaleCompare | src/Query/Query.ts:303-305 | the comparison of two priority strings is negative, zero or positive, decided by the first differing character |
| QueryFilters.FindTag | src/Query/Query.ts:510-515 | the index found holds a tag containing the search term, letter case aside, and nothing is found exactly when no tag contains it |
| QueryFilters.PriorityOrder | src/Query/Query.ts:275-310 | `above p` keeps exactly the tasks whose priority code is smaller than p's, `below p` those with a larger code, `is p` those with the same code |
| QueryFilters.ValueCompare | src/Query/Query.ts:303-305 | comparing the enum's string values orders priorities as their codes do |
| QueryFilters.PriorityTrichotomy | src/Query/Query.ts:301-308 | every task passes exactly one of `above p`, `is p` and `below p` |
| QueryFilters.PriorityExtremes | src/Query/Query.ts:301-305 | no task is above High and none is below Low |
| QueryFilters.AbsentDates | src/Query/Query.ts:352-443 | a task with no start date passes every `starts` filter; a task with no scheduled, due or done date fails every filter on that date |
| QueryFilters.PresentDate | src/Query/Query.ts:361-439 | on a present date the filter passes exactly when the date is before, after or the same as the filter date; an unparseable filter date rejects every task |
| QueryFilters.DateTrichotomy | src/Query/Query.ts:376-443 | a task that has the date passes exactly one of the `before`, `on` and `after` filters for the same parsed date |
| QueryFilters.HappensIff | src/Query/Query.ts:316-350 | `happens` passes exactly when one of start, scheduled and due is present and compares; the done date is never consulted |
| QueryFilters.StatusComplement | src/Query/Query.ts:454-473 | `status is x` keeps exactly the tasks with indicator x, and `status is not x` keeps exactly the others |
| QueryFilters.TagComplement | src/Query/Query.ts:499-523 | `tag includes` passes exactly when some tag contains the term, letter case aside; `does not include` passes exactly when it fails |
| QueryFilters.IncludesComplement | src/Query/Query.ts:525-582 | for path, description and heading, `includes` and `does not include` with the same text are complementary; a task without a heading fails the first and passes the second |
| QueryFilters.PathIgnoresCase | src/Query/Query.ts:480 | lower-casing the path and the search text changes no path filter's answer |
| QueryFilters.DescriptionSkipsGlobalFilter | src/Query/Query.ts:529-540 | for a description made of the global filter, a space and a text, the filter searches only that text |
| QueryFilters.FilterTasks | src/Query/Query.ts:227-230 | filtering never lengthens the task list |
| QueryFilters.Take | src/Query/Query.ts:232 | with no limit all tasks are kept; with a limit, the first `limit` tasks or all of them when there are fewer |
| QueryFilters.ApplyFilters | src/Query/Query.ts:227-233 | the result is a prefix of the sorted filtered tasks, of the limit's length or the whole list when there is no limit |
| QueryFilters.ApplyFiltersSound | src/Query/Query.ts:227-233 | when the sort only reorders, every result task is an input task passing every filter; without a limit every such task is in the result |
| Filtering.Keep | src/Query/Query.ts:229 | one filter pass never lengthens the list |
| Filtering.FilterAll | src/Query/Query.ts:228-230 | the successive filter passes never lengthen the list |
| Filtering.FilterAllSelects | src/Query/Query.ts:228-230 | filtering once per filter keeps exactly the items passing every filter, in their original order |
| Filtering.KeepThenSelect | src/Query/Query.ts:228-230 | narrowing by the first filter and then selecting by the rest is selecting by all of them |
| Filtering.FilterOrderIrrelevant | src/Query/Query.ts:228-230 | two filter lists with the same members keep the same items, whatever the order of the query lines |
| Filtering.SelectedSound | src/Query/Query.ts:228-230 | every selected item is an input item passing every filter, and every such item is selected |
| Query.FirstPrefix | src/Query/Query.ts:31-69 | the alternative chosen is the first in order that the text starts with, and none is chosen exactly when no alternative is a prefix |
| Query.DigitRun | src/Query/Query.ts:62-75 | `\d+` takes a digit prefix and stops only at a non-digit or the end |
| Query.MatchPriority | src/Query/Query.ts:31 | a priority line is accepted only when it starts with `priority ` |
| Query.MatchDateLine | src/Query/Query.ts:33-49 | a date line is accepted exactly when it starts with its keyword and a space |
| Query.MatchStatus | src/Query/Query.ts:51 | a status line is accepted exactly when it starts with `status is ` |
| Query.MatchIncludes | src/Query/Query.ts:53-66 | a path, description or heading line is accepted only when it starts with its keyword and a space |
| Query.MatchTag | src/Query/Query.ts:57 | a tag line is accepted only when it starts with `tag ` or `tags ` |
| Query.MatchLimit | src/Query/Query.ts:75 | a limit line is accepted only when it starts with `limit ` |
| Query.MatchSort | src/Query/Query.ts:61-62 | a sort line is accepted only when it starts with `sort by ` |
| Query.MatchGroup | src/Query/Query.ts:64 | a group line is accepted only when it starts with `group by ` |
| Query.MatchHide | src/Query/Query.ts:68-69 | a hide line is accepted only when it starts with `hide ` |
| Query.Rank | src/Query/Query.ts:101-190 | the switch has nineteen cases in a fixed order |
| Query.Next | src/Query/Query.ts:101-190 | each case is followed by the next one in the switch, and only the comment case is last |
| Query.Hide | src/Query/Query.ts:236-272 | a hide option sets exactly its own flag and leaves every other flag and short mode as they were |
| Query.Lines | src/Query/Query.ts:97-99 | the lines read are the source's newline-separated pieces, each trimmed |
| Query.DispatchReaches | src/Query/Query.ts:101-190 | when every case before `k` fails its test and `k` succeeds, the switch runs case `k` |
| Query.ReadCandidate | src/Query/Query.ts:140-187 | any line a regex case accepts is one that case is the only candidate for |
| Query.SamePrefix | src/Query/Query.ts:140-187 | the candidate case depends on at most the first five characters |
| Query.EarlyCasesHaveNoCandidate | src/Query/Query.ts:102-139 | no whole-line filter and no `short` line is a candidate for a regex case |
| Query.RegexCaseReached | src/Query/Query.ts:101-190 | a line any case from `priority` on accepts is handled by that case: no earlier case takes it |
| Query.CommentIgnored | src/Query/Query.ts:185-187 | a trimmed line starting with `#` is a comment and changes nothing |
| Query.DispatchFalls | src/Query/Query.ts:101-190 | the switch reaches `default` exactly when every remaining case rejects the line |
| Query.UnknownIff | src/Query/Query.ts:188-189 | a line is not understood exactly when every case rejects it |
| Query.NoCandidateRejected | src/Query/Query.ts:101-190 | a non-empty line that is no whole-line filter, no `short` line and has no candidate is rejected by every case |
| Query.UnknownLineEffect | src/Query/Query.ts:188-189 | a line every case rejects sets the error to `do not understand query:` plus the line and changes nothing else |
| Query.HideIsOr | src/Query/Query.ts:236-272 | hiding an option is or-ing that option into the layout |
| Query.CompileMerges | src/Query/Query.ts:101-190 | each case's effect on any query is its effect on a fresh query, merged in |
| Query.ParseLineMerges | src/Query/Query.ts:100-191 | a line's effect does not depend on the lines before it |
| Query.ParseLinesStep | src/Query/Query.ts:100-191 | reading one more line merges its effect into the query so far |
| Query.Effects | src/Query/Query.ts:100-191 | each line's effect, in line order |
| Query.ParseLinesFolds | src/Query/Query.ts:95-192 | parsing the lines is merging their effects one by one |
| Query.ParseLinesFilters | src/Query/Query.ts:95-192 | the filters are every line's filters in line order; an error on one line does not stop later lines adding theirs |
| Query.ParseLinesError | src/Query/Query.ts:95-192 | the error is that of the last line reporting one, or the initial one when no line reports an error |
| Query.ParseLinesLimit | src/Query/Query.ts:584-592 | the limit is that of the last `limit` line, or unset when there is none |
| Query.DateLineEffect | src/Query/Query.ts:352-443 | a valid date adds the field's filter; an invalid one reports the field's error and adds nothing, except `scheduled`, which reports and still adds its filter |
| Query.InvalidScheduledSelectsNothing | src/Query/Query.ts:376-397 | after an unparseable `scheduled` date the query reports the error and holds a filter that rejects every task |
| Query.HappensLineEffect | src/Query/Query.ts:316-350 | a valid `happens` date adds the filter; an invalid one only reports the error |
| Query.StatusLineEffect | src/Query/Query.ts:454-473 | an indicator the registry resolves to the empty status reports the error and adds nothing; any other indicator adds the filter |
| Query.SortDefaultsToFirstInstance | src/Query/Query.ts:594-605 | `sort by urgency` sorts by urgency, not reversed, first instance |
| Query.SortReverseWithInstance | src/Query/Query.ts:594-605 | `sort by status reverse 2` reads reverse and instance 2 |
| Query.LimitReadsDigits | src/Query/Query.ts:584-592 | `limit`, an optional `to `, and a digit run not followed by a digit set the limit to the run's decimal value |
| Query.LimitNumber | src/Query/Query.ts:584-592 | `limit 10` sets the limit 10 |
| Query.LimitToTasks | src/Query/Query.ts:584-592 | `limit to 5 tasks` sets the limit 5 |
| Query.TagHashStripped | src/Query/Query.ts:499-511 | `tags include #home` searches for `home` |
| Query.PriorityAboveMedium | src/Query/Query.ts:275-303 | `priority is above medium` reads relation `above` and priority Medium |
| Query.DoneLine | src/Query/Query.ts:104-106 | the line `done` adds exactly the filter on completed tasks |
| Query.LaterErrorWins | src/Query/Query.ts:95-192 | with two lines not understood and then a valid one, the second error stands and the last line still adds its filters |
| Query.NewSummary | src/Query/Query.ts:95-192 | the constructor keeps the source, and the filters are those of the trimmed lines, in line order |
| Cache.FirstEnclosing | src/Cache.ts:465-475 | the index found is the first, from the start index on, of a `list` section enclosing the line, and none is found exactly when no such section exists |
| Cache.GetSection | src/Cache.ts:454-476 | with no sections there is no section; a section found is a listed `list` section enclosing the line and no earlier one does; none found means no section encloses the line |
| Cache.HeadingScan | src/Cache.ts:491-500 | the heading kept is one of the sections |
| Cache.StopAt | src/Cache.ts:492-497 | the heading loop stops at the first heading that starts after the line, or runs to the end |
| Cache.HeadingScanSpec | src/Cache.ts:491-500 | the heading kept is the last heading before the section where the loop stops, and none is kept when there is no heading before it |
| Cache.KeptStartsBefore | src/Cache.ts:492-499 | the kept heading, and every heading before it, starts at or before the line |
| Cache.KeptIsLast | src/Cache.ts:491-500 | for sections in line order, every heading after the kept one starts after the line |
| Cache.RunOf | src/Cache.ts:510 | the run counted consists of the character and stops at the first other one |
| Cache.HeaderText | src/Cache.ts:510-516 | the heading pattern matches exactly when the line starts with at least one `#` followed by at least one space |
| Cache.HeaderTextOfHeading | src/Cache.ts:510-516 | hashes, spaces and a title with no line terminator and no leading space give back that title |
| Cache.PrecedingHeader | src/Cache.ts:478-517 | no sections give no header; the function fails only when the kept heading's line is outside the file |
| Cache.PrecedingHeaderSpec | src/Cache.ts:478-517 | the header is the title on the kept heading's line, and there is none when no heading is kept |
| Cache.Step | src/Cache.ts:396-448 | once the loop has thrown nothing more is pushed |
| Cache.Visit | src/Cache.ts:412-446 | a task item sets the current section; a push numbers the task after the previous one in the same section, else from zero |
| Cache.Locate | src/Cache.ts:398-410 | the current section is reused while the item lies inside it, and is looked up again, with the index reset, once the item lies past its end |
| Cache.StepInv | src/Cache.ts:394-448 | one list item keeps the loop invariant: pushed tasks carry the file's path, a task item's line and a list section's start, numbered in sequence |
| Cache.ScanInv | src/Cache.ts:394-448 | the whole loop keeps that invariant |
| Cache.ScanExtends | src/Cache.ts:394-448 | the loop only appends to what was pushed, and after a throw nothing changes |
| Cache.OrderedStep | src/Cache.ts:394-448 | for items in line order, one item keeps the invariant that each pushed task lies in a list section enclosing its item |
| Cache.OrderedScan | src/Cache.ts:394-448 | for items in line order, the whole loop keeps that invariant |
| Cache.Walked | src/Cache.ts:394-448 | the tasks found are numbered within their sections and each comes from a task item of the file |
| Cache.Without | src/Cache.ts:386-388 | removing a path's tasks never lengthens the list |
| Cache.Renamed | src/Cache.ts:321-327 | every task at the old path gets the new path and every other task is kept, in place |
| Cache.IndexFile | src/Cache.ts:358-452 | no metadata changes nothing; otherwise the state is kept, the tasks are the others followed by the file's new tasks, and subscribers are notified unless a decode threw |
| Cache.IndexFileKeepsOthers | src/Cache.ts:386-444 | indexing a file leaves the other files' tasks as they were, in order |
| Cache.IndexFileTasksFromFile | src/Cache.ts:394-448 | every task of the file after indexing comes from one of its task items |
| Cache.IndexedTasksInSections | src/Cache.ts:394-448 | for list items in line order, every task of the file lies in a list section enclosing its item |
| Cache.ReindexIsStable | src/Cache.ts:358-452 | indexing an unchanged file a second time gives the same tasks |
| Cache.NoListItemsNoTasks | src/Cache.ts:364-388 | a file whose metadata has no list items loses all its tasks and the subscribers are notified |
| Cache.WithoutMembers | src/Cache.ts:285-287 | the filter keeps exactly the tasks at other paths |
| Cache.WithoutIdempotent | src/Cache.ts:285-287 | removing a path's tasks twice is removing them once |
| Cache.Delete | src/Cache.ts:262-293 | deleting a folder changes nothing; deleting a file keeps exactly the tasks at other paths and notifies |
| Cache.DeleteAfterIndex | src/Cache.ts:262-293 | deleting a file after indexing it leaves what deleting it straight away leaves |
| Cache.Rename | src/Cache.ts:296-333 | renaming a folder changes nothing; renaming a file moves its tasks to the new path, keeps the rest and notifies |
| Cache.RenameBack | src/Cache.ts:321-327 | renaming and renaming back restores the tasks when no task had the new path before |
| Cache.RenameEmptiesOldPath | src/Cache.ts:321-327 | after a rename no task is left at the old path, and the new path gains exactly the old path's tasks |
| Cache.RenamedCount | src/Cache.ts:321-327 | the count of tasks off the new path after a rename is the count before minus the tasks that moved |
| Cache.IndexAll | src/Cache.ts:344-356 | indexing files in turn keeps the state, and no files change nothing |
| Cache.LoadVault | src/Cache.ts:344-356 | the state becomes `Warm` with a last notice of the final tasks, unless an index threw, when it stays `Initializing` |
| Cache.New | src/Cache.ts:52-98 | a constructed cache is never `Cold` and has not yet seen a `resolved` event |
| Cache.EmptyVaultIsWarm | src/Cache.ts:344-356 | an empty vault loads at once: no tasks, `Warm`, one notice |
| Cache.Apply | src/Cache.ts:214-335 | only the first `resolved` event may change the state, to `Initializing` or `Warm`, and it is recorded |
| Cache.ResolvedOnce | src/Cache.ts:214-229 | a second `resolved` event changes nothing |
| Cache.NeverCold | src/Cache.ts:214-335 | a constructed cache never returns to `Cold` |
| Cache.WarmStays | src/Cache.ts:214-335 | once loaded and `Warm`, the cache stays `Warm` through any events |
| SqlSource.CommentLength | src/QuerySql/QuerySql.ts:40 | a comment match runs to the end of its line and takes at most the one line break after it |
| SqlSource.StripComments | src/QuerySql/QuerySql.ts:122 | removing comment lines never lengthens the source |
| SqlSource.StripCommentsClean | src/QuerySql/QuerySql.ts:122 | after the replace no line starts with `#` |
| SqlSource.StripCommentsNoComment | src/QuerySql/QuerySql.ts:122 | a source with no line starting with `#` is left unchanged |
| SqlSource.StripCommentsIdempotent | src/QuerySql/QuerySql.ts:122 | removing comment lines twice is removing them once |
| SqlSource.StripLeadingComment | src/QuerySql/QuerySql.ts:40 | a first line `#…` is removed together with its line feed |
| SqlSource.FromTasksAt | src/QuerySql/QuerySql.ts:138 | a `FROM Tasks` match covers at least the nine characters of `FROM Task` and stays inside the source |
| SqlSource.ReplaceNothing | src/QuerySql/QuerySql.ts:138 | a source in which `FROM Task` never follows whitespace or a line start is left unchanged |
| SqlSource.ReplaceAtMatch | src/QuerySql/QuerySql.ts:138 | a match becomes ` FROM ?`, swallowing every `s` after `Task`, and the scan carries on behind it |
| SqlSource.Tokens | src/QuerySql/QuerySql.ts:128 | every token is a maximal run of characters other than whitespace, `,` and `;`, or a single `;` |
| SqlSource.TokensSplit | src/QuerySql/QuerySql.ts:128 | text joined by whitespace or a comma tokenises into the tokens of each side |
| SqlSource.TokensOfWords | src/QuerySql/QuerySql.ts:128 | words joined by spaces tokenise back into those words |
| SqlSource.FieldPair | src/QuerySql/QuerySql.ts:145-149 | the field token is paired with its part before the first `->`, or with itself when it has none |
| SqlSource.GroupByScan | src/QuerySql/QuerySql.ts:143-151 | the scan only appends grouping fields to those found so far |
| SqlSource.GroupByScanSpec | src/QuerySql/QuerySql.ts:143-151 | the scan throws exactly when the tokens end in `GROUP BY`; otherwise it finds one field for each `GROUP BY` pair, in order |
| SqlSource.Rewrite | src/QuerySql/QuerySql.ts:120-161 | grouping is possible exactly when `GROUP B` appears at the start or after whitespace; a `SELECT` source is pointed at `?`; any other gets the plain prefix, or the projection on its first grouping field |
| SqlSource.RewriteGroupBy | src/QuerySql/QuerySql.ts:128-161 | without `SELECT` the rewrite throws exactly when grouping is possible and the tokens end in `GROUP BY`, and it projects on the field after the first `GROUP BY` |
| SqlQueries.DirectiveOf | src/QuerySql/QuerySql.ts:69-83 | a trimmed line starting with `#` is a directive, namely the rest of the line, trimmed |
| SqlQueries.HideCapture | src/QuerySql/QuerySql.ts:42-43 | the hide capture is found exactly when the hide pattern matches |
| SqlQueries.CaseOf | src/QuerySql/QuerySql.ts:303-333 | the case found is the first listed word equal to the option; none is found when no word equals it |
| SqlQueries.ParseHide | src/QuerySql/QuerySql.ts:298-335 | an unknown option leaves the layout as it was and reports `do not understand hide option` |
| SqlQueries.ParseHideNamed | src/QuerySql/QuerySql.ts:298-335 | the parse succeeds exactly when the trimmed lower-case option is a hide word, and then sets that word's flag |
| SqlQueries.HideNeverErrs | src/QuerySql/QuerySql.ts:298-335 | every option the hide pattern captures is a known one, so the error branch is never taken |
| SqlQueries.HideWordsPlain | src/QuerySql/QuerySql.ts:301 | trimming and lower-casing a hide word gives it back |
| SqlQueries.MatchRaw | src/QuerySql/QuerySql.ts:45 | `raw empty` and `raw tasks` are recognised by their prefixes |
| SqlQueries.LastSpace | src/QuerySql/QuerySql.ts:46 | the position found holds the last space of the text, and none is found exactly when it has no space |
| SqlQueries.MatchCustomJs | src/QuerySql/QuerySql.ts:46 | a `customjs` capture is found only for a directive starting with `customjs ` |
| SqlQueries.MatchTemplate | src/QuerySql/QuerySql.ts:47 | a template capture is found exactly for a directive starting with `template ` |
| SqlQueries.ApplySql | src/QuerySql/QuerySql.ts:85-114 | a directive never sets the error; `short` sets short mode alone; `hide` changes only the layout; `raw` sets raw mode and the tasks mode; at most one class pair is appended |
| SqlQueries.SqlLines | src/QuerySql/QuerySql.ts:69-118 | reading the lines never sets the error |
| SqlQueries.SqlLinesAppend | src/QuerySql/QuerySql.ts:69-118 | reading two blocks of lines is reading the first, then the second |
| SqlQueries.CustomJsAppended | src/QuerySql/QuerySql.ts:97-105 | class pairs only accumulate: the pairs before reading lines are a prefix of those after |
| SqlQueries.CustomJsPair | src/QuerySql/QuerySql.ts:97-105 | `customjs a b` with two space-free names appends exactly the pair `(a, b)` |
| SqlQueries.RawOptions | src/QuerySql/QuerySql.ts:89-96 | `raw empty` and `raw tasks` set raw mode, with the tasks mode on exactly for `tasks` |
| SqlQueries.PlainLineIgnored | src/QuerySql/QuerySql.ts:73-117 | a line that is blank or does not start with `#` sets no directive |
| SqlQueries.NewSql | src/QuerySql/QuerySql.ts:52-162 | the directives are those of the lines; under `raw empty` the source is the comment-free trimmed text; otherwise it is the rewrite of that text, and the constructor fails exactly when the rewrite throws |
| SqlQueries.SqlSourceClean | src/QuerySql/QuerySql.ts:122-127 | under `raw empty` the source is trimmed and no line after the first starts with `#` |
| SqlQueries.IndentedCommentKept | src/QuerySql/QuerySql.ts:71-83 | an indented `#` line is read as a directive yet survives the comment removal, so the trimmed source can start with `#` |
| SqlQueries.ApplyX | src/Query/QueryX.ts:72-85 | `short` sets short mode, `hide` sets its option, and every other directive changes nothing |
| SqlQueries.XLines | src/Query/QueryX.ts:65-88 | reading the lines never sets the error |
| SqlQueries.NewX | src/Query/QueryX.ts:26-89 | the source is the rewrite of the comment-free text, untrimmed, and fails exactly when the rewrite throws; the layout is that of the directives |
| SqlQueries.XIgnoresSqlDirectives | src/Query/QueryX.ts:80-84 | `raw`, `customjs` and `template` directives do nothing to a `QueryX` |
| SqlQueries.SameLayout | src/Query/QueryX.ts:65-88 | on the same lines `QueryX` sets the same layout as `QuerySql` |
| SqlQueries.SqlOthersKeepLayout | src/QuerySql/QuerySql.ts:89-114 | a directive other than `short` and `hide` leaves the layout alone |

## Left out

- **Rendering and UI.** This covers `Task.toLi`, tooltips, the query and task renderers, the settings tab, the status modal and the editor modal. Only the line text that the commands produce is modelled.
- **Cache I/O.** The cache's IndexedDB branch, the mutex, `async` reads and event subscription are left out. The feature flag that gates the IndexedDB branch is not declared in `Feature.ts`. Each handler is one atomic step, and events apply in the order given. How concurrent handlers interleave is not modelled.
- **Throwing index runs.** When a decode throws inside `indexFile`, the walk stops at that item and no notice is sent. If any file throws during `loadVault`, the state stays `Initializing`, because `this.state = State.Warm` is never reached.
- **SQL execution.** Running the rewritten SQL (alasql, `window.customJS`), the Adler-32 `sourceHash` and `src/QueryX.ts` are outside the model.
- **Comment lines in SQL.** The directives read a line only after trimming it, but comment removal matches `#` at column 0 only. So an indented `#short` line is read as a directive and still stays in the SQL text. `SqlQueries.IndentedCommentKept` states this. It is kept as the code behaves and not reported as a defect, since either reading could be intended.
- **Trailing `GROUP BY`.** When the tokens end in `GROUP BY`, the constructors read `sqlTokens[index + 2]` past the end and throw a `TypeError`. The model returns a `Failure` there.
- **`String.prototype.contains`.** The code calls it in the `GROUP BY` scan. It is not standard JavaScript, and the model reads it as `includes`.
- **Registry and status identity.** The status registry, recurrence, urgency, `chrono`/`moment`, `Sort.by` and `Group.by` enter as parameters, because their sources are not part of this model.
- **Structural equality.** Statuses and tasks are compared structurally. JavaScript compares `Status` objects by identity.
- **Dates.** A date is a year, month and day triple with no calendar validation. `moment`'s invalid dates appear only as the `None` the date parser returns.
- **Letter case.** `toLowerCase` and `toLocaleLowerCase` are modelled on ASCII letters only. No Unicode case mapping or locale is modelled.
- **Numbers.** `Number.parseInt` of a digit run is the exact integer. Floating-point rounding of very long limits and sort instances is not modelled.
- **String positions.** Strings are sequences of Unicode code points, while JavaScript counts UTF-16 code units. Where a count leaves the string operations (a date property's `locationIndex` and `length`, the editor's cursor column), the model converts it with `Text.Utf16Length`. Positions that only cut the same string again are kept in code points, which select the same text.
- **`replace` patterns.** `String.prototype.replace` is modelled with a literal replacement. `$` patterns in a global filter used as replacement text are not interpreted.
- **`for…in` order.** Enumeration of `minLevels` follows insertion order. JavaScript's ordering of integer-like keys first is not modelled.
- **Level names from `Object.prototype`.** `levelToInt` looks names up in a plain object. The model treats inherited names such as `constructor` as unknown levels (99), not as the inherited members.
- **Unreachable branches.** `CreateOrEdit.ts` handles a `null` match of the fallback regex, but that regex always matches (`Commands.MatchNonTask`). The check in `parseDoneFilter` for a failed match is likewise unreachable after the switch's test. `Task.fromLine` throws `Missing status indicator` when `byIndicator` returns `null` (`src/Task.ts:335-337`), but the registry answers `Status.EMPTY` for an indicator it does not know, so the modelled `byIndicator` always returns a status. None of these branches is modelled.
- **`isFeatureEnabled`.** The settings store reads as `Settings.MissingFlagDisabled` states. The task codec receives the resulting booleans as parameters.
- TaskLine.CreatedOf: builds the created property with the intended prefix `➕` of Findings row 1, not the `âž•` that `src/TaskProperties.ts:34-35` holds. The date it reads is the one after `➕`.
- TaskLine.ReadBody: reads and removes `➕ <date>`, where the source as written reads the date after `âž•` and removes `âž• <date>`. On `x âž• 2022-01-01` the source gives description `x` and a created date, and the model keeps the whole text. On `add ➕ stuff` the model removes the empty created markdown `➕ ` and gives `add stuff`, and the source keeps the text.
- TaskLine.FromLine: reads created dates with `➕` as `TaskLine.ReadBody` does. A line the create/edit modal writes carries `âž• <today>` in the source, and the model does not read that as a created date. On `- [ ] x 📅 2022-02-02 ➕ 2022-01-01` the model reads both dates, and the source reads neither, because its suffix loop stops at the unread `➕` token.
- RoundTrip.ToStringOf: states a created segment ` ➕ <date>`, and the source writes ` âž• <date>` (`src/Task.ts:618-619`). The round trip `RoundTrip.DecodeEncoded` is stated for the intended prefix, which the model's encoder and decoder share.
- RoundTrip.CreatedStripped: states the removal of a `➕ <date>` segment. The source as written removes `âž• <date>` instead.
- RoundTrip.ReadBodyOf: recovers a body whose created segment starts with `➕`. In the source it starts with `âž•`.
- Commands.FileLines: each line it writes for a modal task carries ` ➕ <today>`. The source writes ` âž• <today>`.
- Commands.ToggleLine: decodes and re-encodes with the intended created prefix. On `- [ ] x 📅 2022-02-02 ➕ 2022-01-01` it reads both dates and writes them back in encoder order. The source keeps that text as the description.
- Commands.TaskFromLine: falls back through the corrected `Commands.Fallback` of Findings row 4, which looks for the block link in the description only. On ` ^abc` the source gives block link ` ^abc` and description `^abc`, as `Commands.FallbackAsWritten` states, and the model gives no block link.
- TaskLine.WithGlobalFilter: states only that the joined description is trimmed, not the full text layout, which `RoundTrip.ToStringOf` states for the default layout with the filter in front.
- TaskLine.PrioritySegment: states only when the segment is empty. The tokens it writes are stated by `RoundTrip.PriorityOnToken` and `RoundTrip.SegmentsRender`.
- **Logging plumbing.** This covers console transports, stack-trace locations, `monkeyPatchConsole` and both `LogConfig.ts` files.
- **`src/Query/Filter/StatusField.ts`.** It depends on a base class that is not part of this model, and it duplicates the done and not-done filters of `Query.ts`.

## Findings

| source | as written | input that shows it | evidently intended | confidence | as-written member | corrected member |
|---|---|---|---|---|---|---|
| src/TaskProperties.ts:34-35 | the created prefix is the mojibake `âž•`: the UTF-8 bytes of `➕` read as Windows-1252 | any date, e.g. 2022-01-01: the markdown is `âž• 2022-01-01`, and the text `➕ 2022-01-01` is not read as a created date | the prefix `➕`, which the tests in `tests/TaskProperties.test.ts` expect; the model's task codec uses this prefix | high (not executed) | Properties.CreatedPrefixAsWritten | Properties.CreatedMarkdownRoundTrip |
| src/TaskProperties.ts:148-149 | the due prefixes are the mojibake forms of `📅`, `📆` and `🗓` | any date: the due markdown is not `📅 2022-01-01` | the prefixes `📅 `, `📆 ` and `🗓 ` | high (not executed) | Properties.DuePrefixAsWritten | Properties.DueMarkdownRoundTrip |
| src/Config/Feature.ts:98-109 | `fromString` returns any truthy property of the class object | `fromString("values")` returns the `values` array instead of throwing `RangeError` | only a declared feature's internal name succeeds, as the doc comment says | medium (not executed) | Features.FromStringAcceptsNonFeature | Features.FromStringToJson |
| src/Commands/CreateOrEdit.ts:87-97 | the block link is looked for in the whole line but removed only from the description capture | `- [ ] ^abc` with a global filter such as `#task` that the line lacks, so that `Task.fromLine` returns `null` and the fallback runs: the description is `^abc` and the block link is ` ^abc`, so the link is written twice | the description loses the link it contributes | medium (not executed) | Commands.FallbackAsWrittenDuplicatesLink | Commands.FallbackOfItem |
