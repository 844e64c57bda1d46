# unocss-pack record queries, modelled in Dafny

The UnoCSS pack keeps its state as an append-only log of records. Each record has an
`id`, a `type`, a `name`, an `operation` and a `data` payload. Reads are queries over
that log. A query declares:

- optional parameter defaults;
- an initial state;
- a step that folds one record into the state;
- a final step that turns the state into the result.

The records are folded one by one in ascending id order.

This project models the four queries under `app/queries/`:

- **scan-classes**: collects the utility-class tokens mentioned by module sources, HTML
  assets and router code.
  - Module text gets three lexical passes:
    - quoted `className="..."`;
    - template `` className={`...`} ``, with `${...}` spans blanked out;
    - double-quoted strings containing a marker such as `bg-` or `hover:`.
  - HTML assets and routers get one `class="..."` pass.
  - Bundled and vendor modules (`.bundle`, `unocss-core`) are skipped.
  - The result is the tokens sorted, their count and the number of records scanned.
- **get-configs**: an upsert list of configurations keyed by name. A later `create` or
  `update` record replaces the whole entry. The result is sorted by name.
- **get-presets**: an append-only list of preset registrations. The `includeConfig`
  flag decides whether each entry carries its configuration. The result is sorted by
  priority (higher first), then by name.
- **get-generated-css**: the latest `generate` record for one configuration wins. When
  there is no usable CSS, the result has a fixed not-found shape.

How the model is organised:

- Records are a datatype (`Records.Record`). The payload has one optional field per
  payload key the queries read. Absent keys are `None`.
- JavaScript truthiness for `||` fallbacks and `??` defaults is written out in module
  `Json`.
- Each query's state is a class whose methods update its fields in place. The fold is a
  `Run` method per query: it loops over the record sequence, calls the state's update
  once per record, then calls the final step once. Each method is proved against a
  specification function that folds the same records (`ClassesOf`, `ConfigsOf`,
  `PresetsOf`, `LastQualifying`).
- Lemmas about those functions carry the promises of the source.

The regular expressions of scan-classes are not handled by a regex engine. Each is a
hand-written matcher over the text (`Patterns`), wrapped in a `matchAll` with
JavaScript's semantics:

- the leftmost match is found first;
- matches do not overlap;
- scanning resumes right after each match.

A failed attempt of the marker pattern at one `"` retries at the next one. The matchers
are proved equal to a declarative description of each pattern (`Patterns.PatternAt`):
no match is missed and every reported match is real.

`params` of scan-classes is modelled (`ResolveParams`), but nothing in `update` or
`transform` reads the parameters. So routers are scanned even though `includeRouters`
defaults to false, and `Run`'s result does not depend on its `input`.

## Model

| member | source | states |
|---|---|---|
| Json.Or | app/queries/get-configs.ts:16-19 | `field \|\| fallback`: the field when present and truthy, otherwise the fallback |
| Json.OrStr | app/queries/scan-classes.ts:39 | `\|\|` on a string field: the field when present and non-empty, otherwise the fallback |
| Json.OrInt | app/queries/get-presets.ts:21 | `\|\|` on a number: the field when present and non-zero, otherwise the fallback |
| Json.OrDefault | app/queries/scan-classes.ts:16-18 | `??`: the field when present, otherwise the default |
| Text.RunEnd | app/queries/scan-classes.ts:44 | the first stop character at or after `k` (or the end), with no stop character in between: the extent of a negated character class `[^...]+` |
| Text.Tokens | app/queries/scan-classes.ts:47 | `split(/\s+/).filter(Boolean)` yields only non-empty tokens free of JavaScript whitespace |
| Text.TokensSplitAtSpace | app/queries/scan-classes.ts:47 | a whitespace character splits the text into two independently tokenized parts |
| Text.TokensOfWord | app/queries/scan-classes.ts:47 | a non-empty word without whitespace is exactly one token |
| Text.TokensOfBlank | app/queries/scan-classes.ts:47 | all-whitespace text has no tokens |
| Text.TokensOccur | app/queries/scan-classes.ts:47 | every token occurs verbatim in the text it came from |
| Text.Utf16Length | app/queries/scan-classes.ts:61 | JavaScript `length` counts UTF-16 code units: between one and two per character, and exactly one per character when all lie below U+10000 |
| Text.StrLeTotal | app/queries/scan-classes.ts:133 | the string order used for sorting is total |
| Text.StrLeAntisymmetric | app/queries/scan-classes.ts:133 | the string order is antisymmetric: two strings that each sort no later than the other are equal |
| Text.StrLeTransitive | app/queries/scan-classes.ts:133 | the string order is transitive |
| Sorting.SortBy | app/queries/get-presets.ts:36-41 | the sort returns the same entries (a permutation), in ascending key order, with entries of equal key kept in their original order (a stable sort, like `Array.prototype.sort`) |
| Patterns.MatchAt | app/queries/scan-classes.ts:44-114 | trying a pattern at one position finds the match that the regular expression would find there, with its capture group as the text between the delimiters, and finds none exactly when the pattern cannot match there |
| Patterns.QuotedAttrAt | app/queries/scan-classes.ts:44 | `className=["']([^"']+)["']` (and `class=...`) tried at one position |
| Patterns.TemplateAttrAt | app/queries/scan-classes.ts:53 | ``className=\{`([^`]+)`\}`` tried at one position |
| Patterns.MarkedStringAt | app/queries/scan-classes.ts:70 | a double-quoted string whose text holds a marker, tried at one `"`; a failure leaves the next `"` to be tried |
| Patterns.MatchAll | app/queries/scan-classes.ts:44-45 | `matchAll` yields at most one match per remaining position, each lying within the text after the starting point |
| Patterns.MatchAllSound | app/queries/scan-classes.ts:44-45 | each match `matchAll` yields is the pattern's match at its own start, within the text |
| Patterns.MatchAllOrdered | app/queries/scan-classes.ts:44-45 | `matchAll` yields matches in order, without overlap |
| Patterns.MatchAllComplete | app/queries/scan-classes.ts:44-45 | every position where the pattern matches is the start of a yielded match or lies inside one |
| Patterns.MatchAllGroup | app/queries/scan-classes.ts:46-47 | a yielded match's capture is exactly the text between its delimiters |
| Patterns.InterpolationAt | app/queries/scan-classes.ts:57 | finds the `${...}` span (non-empty body, no `}` inside) at the front of the text, and finds none exactly when no such span starts there, so a `$` that opens no span stays in place |
| Patterns.StripInterpolations | app/queries/scan-classes.ts:57 | the replacement never lengthens the text, and every character it yields is a space or a character of the input |
| Patterns.StripPlainPrefix | app/queries/scan-classes.ts:57 | the `${...}` replacement leaves text without `$` unchanged |
| Patterns.StripSpan | app/queries/scan-classes.ts:57 | each `${...}` span becomes exactly one space, left to right |
| ScanClasses.ResolveParams | app/queries/scan-classes.ts:15-19 | modules and assets default to on, routers to off, and an explicit value is kept |
| ScanClasses.ModuleText | app/queries/scan-classes.ts:39 | module text is `src`, else `compiled_src`, else empty; it is empty exactly when both are missing or empty |
| ScanClasses.RouterText | app/queries/scan-classes.ts:110 | router text prefers `compiled_src` over `src` |
| ScanClasses.Filter | app/queries/scan-classes.ts:59-79 | a token survives a pass's filter exactly when it was split out and the pass keeps it |
| ScanClasses.TemplateKeep | app/queries/scan-classes.ts:61 | a kept template token has no `$`, `?` or `:` and a `length` above one in UTF-16 code units, so a lone character below U+10000 is dropped |
| ScanClasses.IsClassToken | app/queries/scan-classes.ts:76 | a token of shape `^[a-z][a-z0-9\-_:]*$` (case-insensitive) with `length` above one has at least two characters and holds no whitespace, quote, `$` or `?` |
| ScanClasses.Keep | app/queries/scan-classes.ts:48-79 | the quoted passes keep every token; the template and marker passes never keep a `$` or a lone character below U+10000 |
| ScanClasses.Excluded | app/queries/scan-classes.ts:35 | a module is skipped when its name includes `.bundle` or `unocss-core`; a name shorter than `.bundle` (seven characters), the empty name included, is never skipped |
| ScanClasses.RecordClasses | app/queries/scan-classes.ts:28-128 | only an added module, asset or router contributes tokens, and a record that contributes any is counted |
| ScanClasses.Scans | app/queries/scan-classes.ts:83-122 | only an `add` of a module, asset or router can be counted |
| ScanClasses.InsertClass | app/queries/scan-classes.ts:133 | inserting a new token into a sorted, duplicate-free sequence keeps it sorted and duplicate-free and adds exactly that token |
| ScanClasses.SortedDistinctAscending | app/queries/scan-classes.ts:133 | a sorted sequence without duplicates is strictly ascending |
| ScanClasses.ScanState.constructor | app/queries/scan-classes.ts:22-25 | the initial state has no tokens and a zero counter |
| ScanClasses.ScanState.AddTokens | app/queries/scan-classes.ts:58-63 | the `forEach` over one capture's tokens adds exactly the tokens the pass keeps |
| ScanClasses.ScanState.AddPass | app/queries/scan-classes.ts:44-50 | one `matchAll` loop adds exactly the tokens its pass contributes and leaves the counter alone |
| ScanClasses.ScanState.Update | app/queries/scan-classes.ts:28-128 | one record adds exactly its tokens to the set (never removing any) and raises the counter by one exactly when the record is scanned |
| ScanClasses.ScanState.Transform | app/queries/scan-classes.ts:131-140 | the result lists exactly the set's tokens in strictly ascending order, with `count` its length and the counter copied |
| ScanClasses.Run | app/queries/scan-classes.ts:13-141 | folding the records and transforming yields, in strictly ascending order, exactly the tokens of all records, their number and the number of scanned records |
| ScanClassesProperties.MatchesClassesMembers | app/queries/scan-classes.ts:45-49 | a token comes from a pass exactly when some match of the pass yields it |
| ScanClassesProperties.QuotedGroupAvoidsQuotes | app/queries/scan-classes.ts:44 | a quoted-attribute capture holds no quote character |
| ScanClassesProperties.PassTokenShape | app/queries/scan-classes.ts:44-79 | every token a pass adds is non-empty, free of whitespace and passes that pass's filter; quoted and marker passes add only text occurring verbatim in the scanned text; quoted passes add no quote |
| ScanClassesProperties.ClassNameTokensCollected | app/queries/scan-classes.ts:44-49 | every whitespace-separated token inside a `className="..."` match of a scanned module ends up in the set verbatim |
| ScanClassesProperties.ExcludedModuleIgnored | app/queries/scan-classes.ts:35-37 | a module named with `.bundle` or `unocss-core` adds nothing and is not counted |
| ScanClassesProperties.EmptyModuleIgnored | app/queries/scan-classes.ts:39-41 | a module with empty text adds nothing and is not counted |
| ScanClassesProperties.AssetAndRouterCounting | app/queries/scan-classes.ts:88-124 | an asset counts exactly when it is HTML with content; a router counts whenever it has source, whatever `includeRouters` says; other records change nothing |
| ScanClassesProperties.RecordTokensWellFormed | app/queries/scan-classes.ts:44-119 | every token a record contributes is non-empty and free of whitespace |
| ScanClassesProperties.ClassesOfMembers | app/queries/scan-classes.ts:28-128 | the final set is exactly the union of what each record contributes |
| ScanClassesProperties.ClassesOfGrow | app/queries/scan-classes.ts:48 | folding more records never removes a token nor lowers the counter |
| ScanClassesProperties.ScannedAtMostRecords | app/queries/scan-classes.ts:83-122 | the counter never exceeds the number of records |
| ScanClassesProperties.AllClassesWellFormed | app/queries/scan-classes.ts:47-48 | every token in the final set is non-empty and free of whitespace |
| ScanClassesProperties.AscendingUnique | app/queries/scan-classes.ts:133 | only one strictly ascending sequence holds a given set, so the sorted result is determined by the set |
| ScanClassesProperties.TemplateDropsInterpolation | app/queries/scan-classes.ts:57-58 | inside a template attribute, a `${...}` span counts as a single space, so nothing inside the expression becomes a token |
| ScanClassesProperties.MatchAllNone | app/queries/scan-classes.ts:53 | `matchAll` yields nothing where the pattern matches nowhere |
| ScanClassesProperties.SingleQuotedAttr | app/queries/scan-classes.ts:44-49 | a text that is one quoted attribute yields exactly the tokens of its value |
| ScanClassesProperties.NoTemplateWithoutBacktick | app/queries/scan-classes.ts:53 | text without a backtick has no template attribute |
| ScanClassesProperties.MarkedWithinQuotes | app/queries/scan-classes.ts:70-79 | when the only double quotes enclose the value, the marker pass adds only tokens of that value |
| ScanClassesProperties.MarkedWithinClassName | app/queries/scan-classes.ts:70-79 | in a lone `className="..."` attribute the marker pass adds only tokens of the value |
| ScanClassesProperties.SingleClassNameOtherPasses | app/queries/scan-classes.ts:53-81 | in a lone `className="..."` attribute, the template pass finds nothing and the marker pass adds only tokens of the value |
| ScanClassesProperties.SingleClassNameModule | app/queries/scan-classes.ts:44-81 | a module whose text is one `className="..."` attribute contributes exactly the tokens of its value |
| ScanClassesScenario.BundleModuleSkipped | app/queries/scan-classes.ts:35-37 | `core.bundle.js` contributes nothing and is not counted |
| ScanClassesScenario.ThreeWords | app/queries/scan-classes.ts:47 | three words separated by single spaces are three tokens |
| ScanClassesScenario.ButtonModuleScanned | app/queries/scan-classes.ts:39-83 | a component with `className="flex items-center p-4"` yields those three tokens and counts |
| ScanClassesScenario.HtmlAssetScanned | app/queries/scan-classes.ts:88-102 | an HTML asset with `class="rounded-lg"` yields that token and counts |
| ScanClassesScenario.FoldSnoc | app/queries/scan-classes.ts:28-128 | folding one more record adds its tokens and its count |
| ScanClassesScenario.ScenarioFold | app/queries/scan-classes.ts:28-128 | the three records together give four tokens and two scanned records |
| ScanClassesScenario.RunScenario | app/queries/scan-classes.ts:131-140 | the query over the three records returns `["flex", "items-center", "p-4", "rounded-lg"]`, count 4, scanned 2 |
| GetConfigs.MakeConfig | app/queries/get-configs.ts:14-25 | an entry is built from its record alone: each of `presets`, `theme`, `rules` and `shortcuts` is the record's value when present and truthy, and `[]`, `{}`, `[]`, `{}` respectively when missing or falsy; the other fields pass through |
| GetConfigs.IndexOfName | app/queries/get-configs.ts:12 | `findIndex`: the first index holding the name, or -1 when no entry has it |
| GetConfigs.LastWrite | app/queries/get-configs.ts:10 | the last qualifying record with a given name is a qualifying record of the log with that name |
| GetConfigs.LastWriteIsLast | app/queries/get-configs.ts:10-33 | that record is the qualifying record with the name latest in the log, and there is none exactly when no qualifying record has the name |
| GetConfigs.Upsert | app/queries/get-configs.ts:27-33 | the list grows by one exactly when the name is new, the new entry is stored, and the names gain the record's name and lose none |
| GetConfigs.ReplaceNames | app/queries/get-configs.ts:29 | overwriting an entry with one of the same name stores it and keeps the set of names |
| GetConfigs.UpsertReplaces | app/queries/get-configs.ts:27-29 | with distinct names, an existing name is replaced in place at its own index and every other entry stays |
| GetConfigs.UpsertAppends | app/queries/get-configs.ts:30-33 | a new name is appended as one entry at the end |
| GetConfigs.UpsertMembers | app/queries/get-configs.ts:12-33 | an upsert keeps names distinct, adds the record's name, and leaves the new entry plus the old entries with other names |
| GetConfigs.ConfigsOfNames | app/queries/get-configs.ts:12-33 | the list never holds two entries with the same name, and its names are exactly those of the qualifying records |
| GetConfigs.UniqueNamesCount | app/queries/get-configs.ts:12-33 | with distinct names there is one name per entry |
| GetConfigs.ConfigsOfCount | app/queries/get-configs.ts:12-33 | the number of entries is the number of distinct names written |
| GetConfigs.ConfigsOfLatest | app/queries/get-configs.ts:14-29 | an entry is in the list exactly when it is built from the last qualifying record with its name, with nothing merged from earlier records |
| GetConfigs.NamesBound | app/queries/get-configs.ts:12-33 | a list never has more names than entries |
| GetConfigs.CountedNamesUnique | app/queries/get-configs.ts:12-33 | as many names as entries means no name repeats |
| GetConfigs.ConfigState.constructor | app/queries/get-configs.ts:2-6 | the initial list is empty |
| GetConfigs.ConfigState.ProcessRecord | app/queries/get-configs.ts:8-35 | a `uno-config` create or update upserts its entry by name; any other record leaves the list unchanged |
| GetConfigs.ConfigState.GetResult | app/queries/get-configs.ts:37-47 | the list is sorted by name in place (a permutation of it) and returned with its length |
| GetConfigs.Run | app/queries/get-configs.ts:2-47 | the query returns, sorted by name, one entry per distinct name written, each built from the last qualifying record with that name, and the count of distinct names |
| GetPresets.IncludeConfig | app/queries/get-presets.ts:13 | `includeConfig` is on unless it is explicitly false |
| GetPresets.MakePreset | app/queries/get-presets.ts:17-28 | a missing or zero priority becomes 100, any other is kept; the entry has a config exactly when configs are included, and it is the record's config when present and truthy, `{}` otherwise; the other fields pass through |
| GetPresets.Registrations | app/queries/get-presets.ts:16 | the registrations of the log, and only those |
| GetPresets.PresetKey | app/queries/get-presets.ts:36-41 | a preset's key sorts no later than another preset's exactly when its priority is higher, or equal with a name not after the other's |
| GetPresets.PresetOrder | app/queries/get-presets.ts:36-41 | the sort key orders exactly as the comparator: higher priority first, then ascending name |
| GetPresets.PresetsOfRegistrations | app/queries/get-presets.ts:16-30 | the list holds one entry per registration, in record order and with no merging by name, each built from its own record |
| GetPresets.PresetsOfConfig | app/queries/get-presets.ts:26-28 | every entry carries a configuration exactly when the flag is on |
| GetPresets.PresetState.constructor | app/queries/get-presets.ts:6-10 | the initial list is empty |
| GetPresets.PresetState.ProcessRecord | app/queries/get-presets.ts:12-32 | a `uno-preset` registration appends exactly one entry; any other record changes nothing |
| GetPresets.PresetState.GetResult | app/queries/get-presets.ts:34-47 | the list is stably sorted in place by priority and name (a permutation of it) and returned with its length |
| GetPresets.Run | app/queries/get-presets.ts:1-47 | the query returns the entries of all registrations, sorted by priority descending then name, ties kept in record order, with count equal to the number of registrations |
| GetGeneratedCss.LastQualifying | app/queries/get-generated-css.ts:17-25 | the record that wins is a `css-generated` `generate` record for the requested configuration |
| GetGeneratedCss.LastQualifyingIsLast | app/queries/get-generated-css.ts:17-25 | the winner is the qualifying record latest in the log, and there is none exactly when no record qualifies |
| GetGeneratedCss.Expected | app/queries/get-generated-css.ts:29-47 | found exactly when the winner has non-empty content; otherwise the fixed not-found shape; when found, the winner's content, timestamp and id, and its class count when non-zero, else 0 |
| GetGeneratedCss.CssState.constructor | app/queries/get-generated-css.ts:6-13 | the initial state is no content, no timestamp, zero classes, no record |
| GetGeneratedCss.CssState.ProcessRecord | app/queries/get-generated-css.ts:15-27 | a qualifying record overwrites all four fields (class count defaulting to 0); any other record changes nothing |
| GetGeneratedCss.CssState.GetResult | app/queries/get-generated-css.ts:29-47 | falsy content (absent or empty) gives the not-found shape; otherwise the fields pass through unchanged |
| GetGeneratedCss.CssState.ResultOfWriter | app/queries/get-generated-css.ts:22-46 | the result from the state a record left is the expected result for that record |
| GetGeneratedCss.Run | app/queries/get-generated-css.ts:1-47 | the query's result is determined by the last qualifying record alone |
| GetGeneratedCss.EmptyLatestHides | app/queries/get-generated-css.ts:30-38 | a later qualifying record with empty content makes the result not-found, whatever came before |

## Left out

- The JavaScript exception raised when `data` is missing on asset, router,
  configuration, preset or CSS records: every record carries a payload. A module with no
  payload behaves like one with an empty payload, which is how the source treats it.
- The record's `hash` and every payload key the queries do not read.
- The locale-specific order of `localeCompare` and the UTF-16 code-unit order of the
  default `sort()`. Both are modelled as lexicographic order by character code (`Text.StrLe`).
- JavaScript numbers: priorities, class counts and ids are integers. A non-numeric or
  fractional priority, and `NaN` as a falsy value, are not modelled.
- The difference between `null` and `undefined`: both are `None`. Where a stored field
  came from an absent payload key, the model does not distinguish it from the initial
  `null`.
- Type tests of JavaScript values on payload fields: a string-typed field holding another
  kind of value is not modelled.
- The HTTP routers, the write-side actions and the build configuration: they are I/O,
  foreign calls and bundling, outside the queries.
- How the store fetches and orders records, and concurrency: each `Run` takes the records
  as a sequence already in id order.
- The fold protocol is written once per query, as each query's `Run` method, rather than
  as one generic fold over a query interface.
- GetGeneratedCss.Run: a call without `params` (where JavaScript would fail on
  `params.configName`) is not modelled; the parameter object is always present.
