# Minerva run-plan resolver, in Dafny

Minerva is a scheduled news/todo digest pipeline. Its run plan is a TOML
document that lists "units": a unit has a name, a five-field cron schedule,
an enabled flag, a mode, a list of actions (`fetch`, `summarize`, `publish`,
`podcast`, ...) and maps of per-action arguments, tokens and secrets. A
`[global]` table supplies defaults that each unit extends. This project
models, over already-decoded documents:

- the run-plan loader and validator: lenient coercion of loosely typed
  input, the action-name alias table, the two-layer merge of global defaults
  into a unit, the cron-field check, the validation that collects every
  issue before refusing a plan, the built-in default plan and the crontab
  renderer (`RunPlan`, runplan.dfy);
- the shell-export derivation for one unit: key sanitising, table merges,
  the selection of the raw unit, and the ordered list of `apply_if_unset`
  and `export` lines (`RunPlanEnv`, runplan_env.dfy);
- the Telegram chat-id list splitting shared by the command-line tools
  (`ChatIds`, common.dfy);
- the run-marker text file: what `write_run_markers` writes and how
  `read_run_markers` parses it, with the round trip (`RunMarkers`,
  persistence.dfy);
- the podcast topic helpers: one-line summary normalisation, title
  extraction and the history window (`PodcastTopics`, podcast.dfy);
- the todo classification, status, title and metadata rules and the
  filter-then-sort of a list's notes (`Todos`, todos.dfy);
- the recursive audio-URL extraction from a speech-synthesis response
  (`Media`, media.dfy).

Supporting modules: `Wrappers` (Option, Result), `Seqs` (sequence helpers),
`Assoc` (insertion-ordered dictionaries as association lists: overriding a
key keeps its position, a new key is appended, as Python dicts do), `Doc`
(the decoded document value: string, bool, int, list, table, other, with
Python truthiness and `str()`), `Text` (Python string operations:
`strip`, `split`, `split()`, `splitlines`, `join`, ASCII `lower`/`upper`,
`shlex.quote` with its decoding partner) and `Order` (lexicographic string
order and a stable insertion sort, the model of Python's `sorted`).

Loops in the source become Dafny methods with loop invariants, each proved
equal to a specification function (`ensures r == Spec(...)`); the
properties are then proved as lemmas about those functions.

## Model

| member | source | states |
|---|---|---|
| RunPlan.AliasLookup | src/minerva/runplan.py:21 | the alias table maps `summarise` to `summarize` and leaves every other token as it is |
| RunPlan.NormalizeTokenAliases | src/minerva/runplan.py:24-28 | a token is trimmed and lowercased, `summarise` becomes `summarize`, any other token passes through; the result is empty iff the trimmed input is empty |
| RunPlan.NormalizeTokenIdempotent | src/minerva/runplan.py:24-28 | normalising a normalised token changes nothing |
| RunPlan.NormalizeTokenOfToken | src/minerva/runplan.py:24-28 | a token already trimmed, lowercase and not an alias is its own normal form |
| RunPlan.CleanStrings | src/minerva/runplan.py:310-313 | list coercion keeps at most one string per item, and every string kept is trimmed and non-empty |
| RunPlan.CleanStringsConcat | src/minerva/runplan.py:310-313 | list coercion works item by item, keeping order: coercing a concatenation concatenates the results |
| RunPlan.CleanStringsOfClean | src/minerva/runplan.py:310-313 | a list of strings that are already trimmed and non-empty is kept unchanged, in order and with duplicates |
| RunPlan.StringListOf | src/minerva/runplan.py:310-313 | a missing or non-list value becomes the empty list; every element of the result is trimmed and non-empty |
| RunPlan.ActionListOf | src/minerva/runplan.py:306-307 | action lists are string lists with each element normalised as an action token, element for element |
| RunPlan.ActionListOfTokens | src/minerva/runplan.py:306-307 | a list of normalised action tokens is read back unchanged, duplicates kept |
| RunPlan.OptionalStrOf | src/minerva/runplan.py:299-303 | an optional string is None iff it is missing or blank after `str()` and trimming; otherwise it is trimmed and non-empty |
| RunPlan.StringMapEntries | src/minerva/runplan.py:316-325 | a coerced string map has only trimmed non-empty keys and values |
| RunPlan.StringMapLookup | src/minerva/runplan.py:316-325 | a key of the coerced map holds the trimmed value of the last entry whose trimmed key and value are both non-empty; other entries are dropped |
| RunPlan.StringMapOf | src/minerva/runplan.py:316-325 | a missing or non-table value becomes the empty map |
| RunPlan.AsStringMap | src/minerva/runplan.py:316-325 | the loop that fills the result dict computes the coerced string map |
| RunPlan.ActionArgsEntries | src/minerva/runplan.py:273-284 | action-argument maps have normalised, non-empty action keys and clean string lists as values |
| RunPlan.ActionArgsLookup | src/minerva/runplan.py:273-284 | looking an action up in the coerced map gives the cleaned `args` list of the last table entry whose key normalises to it; blank keys and non-table entries are skipped |
| RunPlan.ActionArgsOf | src/minerva/runplan.py:273-284 | a missing or non-table value becomes the empty map; the result is an action-argument map |
| RunPlan.AsActionArgsMap | src/minerva/runplan.py:273-284 | the loop that skips blank keys and non-table entries computes the coerced action-argument map |
| RunPlan.BuildGlobalConfig | src/minerva/runplan.py:248-256 | the global defaults are coerced, and an empty `[global]` table gives no mode and empty lists and maps |
| RunPlan.BuildUnitConfig | src/minerva/runplan.py:259-270 | a unit's fields are coerced; a missing name or schedule is empty and a missing `enabled` means enabled |
| RunPlan.MergeActionArgs | src/minerva/runplan.py:287-296 | the merge loop of `_merge_action_args` computes the specification merge |
| RunPlan.MergeArgsGet | src/minerva/runplan.py:287-296 | a key the unit sets maps to the global list (or empty) followed by the unit list; a key only in global keeps its list |
| RunPlan.MergeArgsKeys | src/minerva/runplan.py:287-296 | the merged key set and order are those of a shallow dict update: global keys first, then unit-only keys |
| RunPlan.MergedUnitLookup | src/minerva/runplan.py:111-131 | in the merged unit, tokens and secrets take the unit's value where the unit has the key and the global value otherwise; action args follow the list-append merge |
| RunPlan.MergedUnitKeyOrder | src/minerva/runplan.py:111-131 | the merged tokens, secrets and action args list the global keys first, then the keys only the unit has |
| RunPlan.MergedUnitCoerced | src/minerva/runplan.py:111-131 | merging two coerced layers gives a coerced unit: args and actions stay clean, modes stay non-blank |
| RunPlan.CronFieldMatchesGrammar | src/minerva/runplan.py:20 | the field check accepts exactly `*`, `N`, `N-M`, `*/N` and comma lists of two or more integers |
| RunPlan.ValidCronOfWords | src/minerva/runplan.py:328-332 | a schedule is valid iff it splits on whitespace into exactly five fields, each accepted by the field check |
| RunPlan.HourlyScheduleValid | src/minerva/runplan.py:328-332 | `0 * * * *` is accepted |
| RunPlan.ShortScheduleInvalid | src/minerva/runplan.py:328-332 | a schedule with three fields is refused |
| RunPlan.VerdictIssues | src/minerva/runplan.py:139-175 | one unit's issues carry its display name, come in the order name, schedule, actions with at most one of each, and are empty iff the unit has no defect |
| RunPlan.Validate | src/minerva/runplan.py:133-178 | the validation loop over units, with its set of seen names, computes the specification list of issues |
| RunPlan.IssuesOfEmpty | src/minerva/runplan.py:133-178 | the collected issues are empty iff every unit's verdict is clean |
| RunPlan.CheckUnitClean | src/minerva/runplan.py:139-167 | a unit is clean iff its schedule passes, its merged actions are non-empty and its display name (or `<unit[i]>` placeholder) was not seen before |
| RunPlan.UnseenBadUnitIssues | src/minerva/runplan.py:139-175 | a unit with a new display name, an invalid schedule and no merged action gets exactly the schedule issue followed by the actions issue, both under that name |
| RunPlan.ValidateIffValid | src/minerva/runplan.py:133-178 | validation reports no issue iff the plan is valid |
| RunPlan.UnitTablesAll | src/minerva/runplan.py:101-105 | when every unit entry is a table, each one becomes a unit, in order |
| RunPlan.BuildUnits | src/minerva/runplan.py:101-105 | each unit table is built with the unit builder, one unit per table, in order |
| RunPlan.PlanOf | src/minerva/runplan.py:96-107 | the plan read from a document keeps its file path and has coerced global and unit configurations |
| RunPlan.ReadUnits | src/minerva/runplan.py:101-105 | the loop that skips non-table unit entries builds the specification list of units |
| RunPlan.FromMapping | src/minerva/runplan.py:96-109 | loading a document computes the specification result: the plan, or the list of issues |
| RunPlan.LoadValidates | src/minerva/runplan.py:96-109 | loading succeeds iff the plan read is valid, returns that plan, and a failure carries at least one issue |
| RunPlan.DefaultPlanRead | src/minerva/runplan.py:181-202 | the built-in document reads as the `hourly` and `daily` units with no global defaults |
| RunPlan.DefaultPlanLoads | src/minerva/runplan.py:181-202 | the built-in plan passes validation |
| RunPlan.EnabledUnits | src/minerva/runplan.py:227-229 | only enabled units of the plan are rendered |
| RunPlan.AppendEnabledUnits | src/minerva/runplan.py:225-240 | the render loop appends one comment line and one schedule line per enabled unit, in order, and counts the enabled units |
| RunPlan.RenderCron | src/minerva/runplan.py:214-245 | the crontab text is the newline join of the specification lines |
| RunPlan.CronLayout | src/minerva/runplan.py:218-245 | the crontab has the four header lines, then a `# unit:` line and a schedule line per enabled unit, and the closing note iff no unit is enabled |
| RunPlan.CronNamesRoundTrip | src/minerva/runplan.py:218-245 | reading the `# unit:` comments back from the crontab's lines, before they are joined, gives exactly the enabled unit names in plan order |
| RunPlan.CronTextLines | src/minerva/runplan.py:214-245 | when no unit name or schedule and not the plan path holds a line break, `splitlines` of the rendered text gives back exactly the joined lines |
| RunPlan.CronTextNamesRoundTrip | src/minerva/runplan.py:214-245 | under the same condition, the `# unit:` comments of the rendered crontab text give exactly the enabled unit names in plan order |
| RunPlan.ScheduleLineFields | src/minerva/runplan.py:231-239 | a schedule line starts with the unit's schedule fields, has `root` next iff system cron is asked for, then the runner path |
| RunPlanEnv.CollapseRuns | src/minerva/tools/runplan_env.py:64-65 | replacing each run of non-alphanumeric characters by one `_` leaves no two `_` side by side |
| RunPlanEnv.SanitizeKeyShape | src/minerva/tools/runplan_env.py:64-65 | a sanitised key uses only `A-Z`, `0-9` and `_`, never starts or ends with `_` and never contains `__` |
| RunPlanEnv.SanitizeKeyKeepsAlnums | src/minerva/tools/runplan_env.py:64-65 | sanitising keeps every ASCII letter and digit, in order, uppercased |
| RunPlanEnv.SanitizeKeyOfEnvName | src/minerva/tools/runplan_env.py:64-65 | a key already of that shape is unchanged |
| RunPlanEnv.SanitizeKeyIdempotent | src/minerva/tools/runplan_env.py:64-65 | sanitising twice equals sanitising once |
| RunPlanEnv.TableOf | src/minerva/tools/runplan_env.py:53-55 | a table-valued key gives its table and anything else the empty table |
| RunPlanEnv.MergeDicts | src/minerva/tools/runplan_env.py:58-61 | copy-then-update computes the shallow dict update of the two inputs |
| Assoc.UpdateGet | src/minerva/tools/runplan_env.py:58-61 | in the update, a key of the second dict takes its value and any other key keeps the first dict's |
| Assoc.UpdateKeyOrder | src/minerva/tools/runplan_env.py:58-61 | the update lists the first dict's keys in their order (overridden keys keep their place), then the second's new keys |
| RunPlanEnv.MergeActionTables | src/minerva/tools/runplan_env.py:91-109 | the merge loop computes the specification action-table merge |
| RunPlanEnv.ActionTablesGet | src/minerva/tools/runplan_env.py:91-109 | a non-blank unit key maps to `{"args": clean global args followed by clean unit args}`; any other key keeps its global entry |
| RunPlanEnv.EntryArgsOfArgsEntry | src/minerva/tools/runplan_env.py:91-109 | the args read from a merged entry are the args it was built from |
| RunPlanEnv.FirstNamed | src/minerva/tools/runplan_env.py:81-88 | the selected index is the first raw unit whose trimmed name matches, or past the end when none does |
| RunPlanEnv.SelectedRawUnit | src/minerva/tools/runplan_env.py:81-88 | the loop with its early return selects that first matching raw unit, or the empty table |
| RunPlanEnv.EmitApply | src/minerva/tools/runplan_env.py:68-69 | an emitted setting is an `apply_if_unset` line with the quoted name and value |
| Text.ShellQuoteRoundTrip | src/minerva/tools/runplan_env.py:68-69 | the shell reads every quoted value back as exactly the original string |
| RunPlanEnv.ShellNameUnquoted | src/minerva/tools/runplan_env.py:68-69 | a variable name made of letters, digits and `_` is emitted without quotes |
| RunPlanEnv.VarNameShape | src/minerva/tools/runplan_env.py:141-163 | every non-env variable name starts with `MINERVA_`, and provider and token names are plain shell names |
| RunPlanEnv.ActionArgsShape | src/minerva/tools/runplan_env.py:167-175 | an action's argument variable is a plain shell name starting with `MINERVA_ACTION_` |
| RunPlanEnv.MoveConfigPath | src/minerva/tools/runplan_env.py:132-133 | `config_path` leaves the options and is set in the paths, overwriting in place or appended at the end; nothing else changes |
| RunPlanEnv.Assignments | src/minerva/tools/runplan_env.py:141-163 | each section loop emits exactly one line per entry of its table |
| RunPlanEnv.AppendAssignments | src/minerva/tools/runplan_env.py:141-163 | a section loop appends the section's assignment lines to what was there |
| RunPlanEnv.AppendActionArgs | src/minerva/tools/runplan_env.py:167-175 | the action loop appends one `..._ARGS` line per action whose clean args are non-empty |
| RunPlanEnv.FirstUnitNamed | src/minerva/tools/runplan_env.py:113-116 | the plan lookup finds the first unit with exactly the requested name |
| RunPlanEnv.MergeUnitTables | src/minerva/tools/runplan_env.py:119-130 | merging the global and unit tables computes the specification settings |
| RunPlanEnv.WriteExports | src/minerva/tools/runplan_env.py:140-179 | the line-building loops compute the specification export lines |
| RunPlanEnv.WriteUnitExports | src/minerva/tools/runplan_env.py:118-179 | the exports of a found unit are the specification lines for its merged settings |
| RunPlanEnv.SelectActions | src/minerva/tools/runplan_env.py:135-138 | the selected actions are the merged actions, or, when those are empty, the fallback list for the `daily` mode or the default one |
| RunPlanEnv.DeriveUnitExports | src/minerva/tools/runplan_env.py:112-179 | the derivation computes the specification result: the export lines, the validation failure or the lookup error |
| RunPlanEnv.DeriveExportsCases | src/minerva/tools/runplan_env.py:112-116 | the derivation fails with the plan's issues exactly when the document's plan is invalid; otherwise it gives the lookup's result for the loaded plan |
| RunPlanEnv.SettingLinesApply | src/minerva/tools/runplan_env.py:141-163 | the setting lines are all `apply_if_unset` lines, one per env, path, option, provider and token entry |
| RunPlanEnv.ExportsLayout | src/minerva/tools/runplan_env.py:140-179 | the lines are the settings, then the selected-actions export, then one `apply_if_unset` per action with args, then the mode export and, last, the unit export |
| RunPlanEnv.ExportLinesFails | src/minerva/tools/runplan_env.py:112-116 | the derivation fails with the lookup error iff no unit has exactly the requested name; otherwise it uses the first such unit merged with the globals |
| RunPlanEnv.SecretsNotEmitted | src/minerva/tools/runplan_env.py:112-179 | changing only secrets, in the plan or in the raw document, changes no emitted line |
| RunPlanEnv.LoadedSelection | src/minerva/tools/runplan_env.py:135-138 | for a loaded plan the merged actions are non-empty, so the selected actions are exactly them, and the mode is the merged mode or else the unit name |
| ChatIds.PieceIds | src/minerva/tools/common.py:13-16 | the kept pieces are trimmed, non-empty and, for comma-free pieces, comma-free |
| ChatIds.ChatIdsOf | src/minerva/tools/common.py:5-17 | every resolved chat id is non-empty, trimmed and free of commas |
| ChatIds.ResolveTelegramChatIds | src/minerva/tools/common.py:5-17 | the nested loops compute the specification list (also models src/minerva/tools/podcast.py:75-87, a copy) |
| ChatIds.NoIds | src/minerva/tools/common.py:8-9 | None, the empty list and `[""]` resolve to no chat id |
| ChatIds.ValuesIdsConcat | src/minerva/tools/common.py:12-16 | values are resolved one after the other and the results flattened in order |
| ChatIds.JoinedIds | src/minerva/tools/common.py:13-16 | a comma-joined list of clean ids splits back into exactly that list, in order and with duplicates |
| ChatIds.ValuesIdsOfIds | src/minerva/tools/common.py:11-17 | a list of clean ids resolves to itself: no reordering and no deduplication |
| ChatIds.ChatIdsIdempotent | src/minerva/tools/common.py:5-17 | resolving already-resolved ids changes nothing |
| RunMarkers.EntryLeTotalPreorder | src/minerva/persistence.py:116 | the order of `sorted(markers.items())` is a total preorder |
| RunMarkers.MarkerLines | src/minerva/persistence.py:116 | one `id<TAB>marker` line per entry |
| RunMarkers.WrittenOrder | src/minerva/persistence.py:116 | the written entries are a permutation of the map, sorted by session id |
| RunMarkers.WrittenTextEnd | src/minerva/persistence.py:117-119 | the text is empty iff the map is empty; otherwise it ends with a newline |
| RunMarkers.WrittenLines | src/minerva/persistence.py:116-119 | the lines of the written text are exactly the sorted marker lines |
| RunMarkers.ParseLineShape | src/minerva/persistence.py:132-138 | a line is skipped iff it is all whitespace; a parsed entry has a non-empty, tab-free id and a trimmed marker |
| RunMarkers.ParseMarkerLine | src/minerva/persistence.py:135-138 | a written line of two whitespace-free words parses back as that id and marker |
| RunMarkers.Parsed | src/minerva/persistence.py:131 | each line of the text is parsed on its own, in order |
| RunMarkers.Fold | src/minerva/persistence.py:130-143 | reading gives a dict with unique keys, or the legacy outcome |
| RunMarkers.ReadRunMarkers | src/minerva/persistence.py:123-143 | the read loop, with its `continue` and early `return {}`, computes the specification reading |
| RunMarkers.FoldMeaning | src/minerva/persistence.py:130-143 | reading falls back to `{}` iff some non-blank line has no tab or space; otherwise each id maps to the marker of its last line |
| RunMarkers.RoundTrip | src/minerva/persistence.py:111-143 | reading the written text gives back the map's entries (sorted) and the same marker for every id, when ids and markers are non-empty words |
| PodcastTopics.CollapseSpace | src/minerva/tools/podcast.py:31 | collapsing whitespace runs keeps emptiness and turns a leading whitespace character into one space |
| PodcastTopics.CollapseSingleSpaced | src/minerva/tools/podcast.py:31 | after collapsing, no whitespace but single spaces remains |
| PodcastTopics.CollapseKeepsWords | src/minerva/tools/podcast.py:31 | collapsing keeps the words of the text, in order |
| PodcastTopics.SliceTo | src/minerva/tools/podcast.py:34 | Python's `s[:n]` is a prefix of length `n` clipped to the string |
| PodcastTopics.CleanSummaryShape | src/minerva/tools/podcast.py:31 | the cleaned text is single-spaced, has no line break and neither starts nor ends with space, `-`, `:` or tab |
| PodcastTopics.SummaryShape | src/minerva/tools/podcast.py:28-34 | a cleaned text within the limit is returned as is; a longer one becomes a right-trimmed prefix shorter than the limit followed by the ellipsis |
| PodcastTopics.SummaryLine | src/minerva/tools/podcast.py:28-34 | with any one-word ellipsis the summary is one trimmed line of at most `max_length - 1` characters plus the ellipsis |
| PodcastTopics.SummaryBound | src/minerva/tools/podcast.py:28-34 | with the intended one-character ellipsis, the summary never exceeds `max_length`, is one line and is trimmed |
| PodcastTopics.AsWrittenTooLong | src/minerva/tools/podcast.py:34 | with the literal as written, a truncated summary whose cut does not fall right after a space is `max_length + 2` characters long |
| PodcastTopics.AsWrittenOverlong | src/minerva/tools/podcast.py:28-34 | with the literal as written, every truncated summary is longer than `max_length`: `max_length + 2` characters, or `max_length + 1` when the cut falls right after a space |
| PodcastTopics.AsWrittenDefaultOverflow | src/minerva/tools/podcast.py:34 | a single 161-character word gives 162 characters as written and 160 as intended |
| PodcastTopics.NonBlankStripped | src/minerva/tools/podcast.py:40 | the kept script lines are trimmed and non-empty |
| PodcastTopics.SummarizeCases | src/minerva/tools/podcast.py:37-51 | for any ellipsis, no non-blank line gives `Untitled topic`; a `title:` line (any case) with a non-empty remainder gives the normalised remainder; otherwise the normalised first line |
| PodcastTopics.SummarizeBound | src/minerva/tools/podcast.py:37-51 | with the intended ellipsis a topic summary is one trimmed line of at most 160 characters |
| PodcastTopics.SummarizerAsWrittenOverflow | src/minerva/tools/podcast.py:49-51 | as written, a script whose only line is a 161-character word is summarised in 162 characters; with the intended ellipsis in 160 |
| PodcastTopics.LastEntries | src/minerva/tools/podcast.py:63-65 | the window holds the last `n` entries, or all when there are fewer |
| PodcastTopics.TopicHistory | src/minerva/tools/podcast.py:58-65 | history entries are trimmed and non-empty; `max_entries <= 0` keeps all, otherwise the last `max_entries`, in order |
| PodcastTopics.HistoryOfSaved | src/minerva/tools/podcast.py:54-72 | reading history text in the saved format gives the topics back, windowed |
| PodcastTopics.SummaryReadBack | src/minerva/tools/podcast.py:28-72 | with any one-word ellipsis, the mis-encoded one included, a summary appended to the history is the last entry read back |
| Todos.IsTodoData | src/minerva/todos.py:69-73 | a note is a todo iff its `type` is a string equal to `todo` in any letter case |
| Todos.LowerIsTodo | src/minerva/todos.py:72 | lowercasing gives `todo` iff the word is t-o-d-o in any case |
| Todos.DetermineStatus | src/minerva/todos.py:152-161 | the status is never empty and never has surrounding whitespace |
| Todos.StatusRules | src/minerva/todos.py:152-161 | a non-blank string status wins, trimmed; else `completed`, then `done`, decide completed or pending by truthiness; else unknown |
| Todos.StatusStable | src/minerva/todos.py:152-161 | writing the determined status back as `status` determines the same status |
| Todos.FirstTruthy | src/minerva/todos.py:79-85 | the `or` chain returns the value of the first key whose value is truthy, or nothing when none is |
| Todos.TitleRule | src/minerva/todos.py:42-50 | a title is the `str()` of the first truthy field, or the fallback id when none is truthy |
| Todos.Without | src/minerva/todos.py:88-92 | metadata holds exactly the entries whose key is not excluded |
| Todos.WithoutGet | src/minerva/todos.py:88-92 | an excluded key is absent from the metadata and any other key keeps its value |
| Todos.BuildTodo | src/minerva/todos.py:76-100 | a built todo has the note's id, a clean status and the note's entries without title, name, text, content and type as metadata |
| Todos.TodoLeTotalPreorder | src/minerva/todos.py:103-105 | the sort key order is a total preorder |
| Todos.BuiltMembers | src/minerva/todos.py:59-64 | the collected todos are exactly the built todos of the todo-typed notes |
| Todos.FetchTodos | src/minerva/todos.py:56-66 | the collect loop followed by the sort computes the specification list |
| Todos.FetchOrder | src/minerva/todos.py:103-105 | the list sorted at line 65 by this key is a permutation of the collected todos, dated before undated, ascending by due date, ties by lowercased title, and stable |
| Media.AudioUrls | src/minerva/media.py:147-173 | every extracted string starts with `http` |
| Media.ListConcat | src/minerva/media.py:158-161 | a list yields its items' results in item order |
| Media.ContainerEntryLast | src/minerva/media.py:155-157 | a dict or list value appended to a dict adds its own results at the end |
| Media.StrEntryIgnored | src/minerva/media.py:152-157 | a string stored under a key other than `audio` or `url` is not yielded |
| Media.AudioTableTwice | src/minerva/media.py:150-157 | a URL nested under `audio` is yielded twice |
| Media.FirstOfString | src/minerva/media.py:162-167 | a top-level string yields itself iff it starts with `http` |
| Media.FirstAudioUrl | src/minerva/media.py:81-92 | the caller's URL is the first extracted one, and there is none iff nothing was extracted |
| Media.FirstOfAudio | src/minerva/media.py:150-154 | a dict whose first entry is `audio` holding a URL gives that URL first, the one the synthesis step (lines 81-92) downloads |
| Order.SortStable | src/minerva/todos.py:65 | sorting keeps the relative order of equal-key elements |
| Text.SplitLinesOfTerminated | src/minerva/persistence.py:131 | `splitlines` of newline-terminated lines gives back those lines |

## Left out

- TOML decoding, file reads, existence checks and directory creation: every operation takes the decoded document or the text directly, and `load_run_plan` is modelled as `FromMapping` on the decoded tree.
- The command-line entry points (`runplan_env.main` with argparse, printing, exit codes and its `echo` text, the tools' `main` functions): process plumbing.
- `str()` of booleans and numbers is the document value's own rendering (`True`, decimal digits); `str(Path)` is taken as the path text given.
- Python's `lower()`, `upper()` and `isupper()` are modelled on ASCII letters, and the cron pattern's `\d` as ASCII digits.
- Dictionaries are association lists; the lemmas about lookups assume unique keys, as any Python dict has.
- Todos.FetchTodos: the in-place `todos.sort` is modelled as the stable functional sort over the list, so in-place mutation of the caller's list is not captured.
- Todos.BuildTodo: due-date parsing (`_normalise_due_date`, ISO and RFC 2822 parsing) is a parameter returning an optional integer; the `datetime.max` stand-in of undated todos is the integer 0, which only ever meets the "undated" flag that already orders those todos last.
- Firestore streaming and `fetch_todo_lists`: notes are given as a sequence of snapshots.
- Media.AudioUrls: decoded JSON has no tuples, so the tuple branch is not modelled, and a tuple nested in a dict value cannot occur.
- Logging calls in all files.
- RunPlan.CronTextNamesRoundTrip: loading strips only the ends of a unit name or schedule, so one may hold a line break, and the plan path may too; such a field splits the rendered crontab, a name split this way is not read back whole, and the lemma does not cover these plans.
- Doc.Repr: Python's `repr` of a string is rendered in single quotes with the text unescaped, so the `UnitLookupError` text (`RunPlanEnv.LookupError`) differs from Python's when the unit name or plan path holds a quote, a backslash or a non-printable character, where Python switches to double quotes or escapes.
- Writing of the topic history file (`save_topic_history`): only the text format it writes is used, in `HistoryOfSaved`.
- `compute_run_markers` (SHA-256, current date), `serialise_todo`/`deserialise_todo*` (datetime formatting), `llm.py`, `notifications.py`, speech synthesis and audio conversion, `prompts.py`, `config.py`, `main.py`, `pipeline.py`: hashing, clocks, network and formatting outside the run-plan core.

## Findings

| source | as written | input that shows it | evidently intended | confidence | as-written member | corrected member |
|---|---|---|---|---|---|---|
| src/minerva/tools/podcast.py:34 | the truncation suffix is the three-character text `â€¦` (UTF-8 bytes of "…" decoded as cp1252), so every truncated summary is longer than `max_length`: `max_length + 2` characters, or `max_length + 1` when the cut falls right after a space that `rstrip` drops | a single 161-character word with the default `max_length` of 160 gives 162 characters, and so does `summarize_generated_topic` (lines 49-51) on a script whose only line is that word | the one-character ellipsis "…" (U+2026), so the summary never exceeds `max_length` | not executed | PodcastTopics.AsWrittenOverlong | PodcastTopics.SummaryBound |
