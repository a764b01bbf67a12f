# flags — a verified model

ViBiOh/flags is a Go library that registers command-line flags on a
`flag.FlagSet` and derives everything else from the flag's name. For each
flag it derives:

- the flag name (`prefix` + capitalised name, first letter lowered);
- the environment-variable name (the upper snake case of the flag-set name
  and the flag name);
- the help label (`[group] label {ENV}`);
- the default.

The default is picked in this order: the environment variable (if set and
parseable), then the first override whose name matches case-insensitively,
then the static default. List flags are backed by an adapter that starts
unedited: the first `Set` clears the default list and later `Set`s append.
A fluent `Builder` record gathers the settings. A help printer groups a
shorthand with its long name, sorts the groups by name and prints padded
columns.

This project models that core in Dafny and proves the properties the code
and its tests rely on. It has one module per source file:

| module | file | source |
|---|---|---|
| `Wrappers` | wrappers.dfy | `Option` |
| `Strings` | strings.dfy | strings.go: case changes, `SnakeCase`, plus `strings.Join` and `%q` |
| `Overrides` | override.dfy | override.go, and `getOverridenValue` of flag.go, which is the same algorithm, modelled once |
| `Strconv` | strconv.dfy | base-10 `strconv.ParseInt`/`ParseUint` with their bit-size bounds |
| `Flags` | flag.dfy | flag.go: names, label, the `LookupEnv*` precedence |
| `Slices` | slices.dfy | slices.go: the two list adapters as classes, the separator parsers, the registrars |
| `Builders` | builder.dfy | builder.go |
| `Usage` | usage.dfy | usage.go: grouping with `AddName`, sorted insertion after a binary search, column widths, rows |

The environment is a `map<string, string>`; a variable is set when its name
is a key. Parsers the model does not define are parameters of type
`string -> Option<T>`:

- float, bool and duration parsing;
- `flag.UnquoteUsage`, which gives a flag's type column and displayed help text.

A Go pointer to a slice (`*[]string`) is a `Slot` object whose `value` field
the adapters reassign. The flag set itself, as far as the help printer sees
it, is the sequence of `(name, usage, default text)` records that `VisitAll`
walks.

flag.go, slices.go and builder.go come from different revisions of the
library. Where they disagree, the model follows each file's own code:

- **Label placeholder.** The label is `{ENV}` as in flag.go:90. The list
  tests expect `${ENV}`, which a later `formatLabel` prints.
- **Explicit variable name.** An explicit `env` given to the list
  registrars is used verbatim (`GetNameAndEnvWithEnv`), as slices.go:56
  calls it and slices_test.go:63-72 exercises it. It falls back to the
  derived name when empty.
- **`defaultValue`.** slices.go:59 calls a `defaultValue` helper defined
  elsewhere in the package. It is modelled as "variable set and parse
  succeeds gives the parsed value, else the static value". That is what
  `LookupEnv*` of flag.go does and what slices_test.go:42-51 exercises.

Properties that do not hold:

- **`SnakeCase` is not idempotent.** It is not applied twice by the library,
  and one pass of `ReplaceAll("__", "_")` turns "___" into "__". A second
  application still changes that string (`SnakeCaseNotIdempotent`).

## Model

| member | source | states |
|---|---|---|
| Strings.ChangeFirstCase | strings.go:14-27 | empty stays empty; length kept; first character mapped up or down; every later character unchanged |
| Strings.UpperChar | strings.go:21 | the upper-case mapping of a character is never lower case; a lower-case letter becomes a capital; anything else is kept |
| Strings.LowerChar | strings.go:23 | the lower-case mapping is never a capital; a capital becomes a lower-case letter; anything else is kept |
| Strings.FirstUpperCase | strings.go:29-32 | length kept; the first character is its upper-case mapping, so no longer lower case; the rest unchanged |
| Strings.FirstLowerCase | strings.go:34-37 | length kept; the first character is its lower-case mapping, so no longer upper case; the rest unchanged |
| Strings.FirstUpperCaseIdentity | strings.go:14-32 | a string whose first character is not lower case (or the empty string) is unchanged by `FirstUpperCase` |
| Strings.FirstLowerCaseIdentity | strings.go:34-37 | a string whose first character is not upper case is unchanged by `FirstLowerCase` |
| Strings.FirstCaseExamples | strings.go:14-37 | "" stays "", "test" gives "Test"/"test", "OhPleaseFormatMe" stays itself upwards and gives "ohPleaseFormatMe" downwards |
| Strings.ToUpper | flag.go:76 | length kept, every character upper-cased (the `strings.ToUpper` applied to the snake case) |
| Strings.ToLower | override.go:21 | length kept, every character lower-cased; the case-insensitive comparison compares these |
| Strings.MarkRuns | strings.go:12 | the regular-expression pass never shortens its input |
| Strings.MarkRunsStep | strings.go:12 | reading left to right, exactly one '_' is inserted before a character precisely when it starts a maximal run of capitals |
| Strings.MarkRunsAppend | strings.go:12 | the pass on a concatenation is the pass on each part, the second starting inside a run iff the first ends with a capital |
| Strings.MarkRunsNoCapitals | strings.go:12 | text without capitals passes unchanged |
| Strings.MarkRunsInsideRun | strings.go:12 | inside a run of capitals no further '_' is inserted, so "HTTPS" gets one boundary |
| Strings.MarkRunsWord | strings.go:12 | a capital followed by non-capitals gets one '_' in front |
| Strings.MarkRunsAppendWord | strings.go:12 | a capitalised word after a non-capital gets one boundary |
| Strings.MarkRunsRunThenLower | strings.go:12 | a run of capitals followed by text without capitals gets one boundary, in front |
| Strings.MarkRunsTwoWords | strings.go:12 | two capitalised words get one boundary each |
| Strings.MarkRunsLowerThen | strings.go:45 | lower-case text before a marked part keeps its '_' between them |
| Strings.DashToUnderscore | strings.go:50 | same length, no '-' left, every '-' replaced by '_' and every other character kept |
| Strings.CollapseUnderscores | strings.go:50 | never longer than its input; adds no '-' |
| Strings.DashToUnderscoreIdentity | strings.go:50 | text without '-' is unchanged |
| Strings.CollapseIdentity | strings.go:50 | text without a doubled '_' is unchanged |
| Strings.CollapsePrefix | strings.go:50 | a prefix without '_' passes through the collapse unchanged |
| Strings.CollapseDoubled | strings.go:50 | one doubled '_' between clean parts becomes a single '_' |
| Strings.DashesAround | strings.go:50 | "a-_b" with no other dash gives "a__b" |
| Strings.SnakeCase | strings.go:39-51 | the result never contains '-'; the empty string maps to itself |
| Strings.SnakeCaseClean | strings.go:39-51 | when the pass leaves no dash and no doubled '_', `SnakeCase` is the pass minus its leading '_' |
| Strings.MarkRunsMarksBeforeCapitals | strings.go:45 | on text without separators the pass writes no '-', and every '_' it writes stands right before a capital |
| Strings.SnakeCaseNoSeparators | strings.go:39-51 | for any non-empty text without '_' and '-', `SnakeCase` is the regular-expression pass, minus its leading '_' when the text starts with a capital |
| Strings.Letters | strings.go:45-50 | deleting '_' and '-' never lengthens |
| Strings.LettersAppend | strings.go:45-50 | deleting '_' and '-' distributes over concatenation |
| Strings.LettersMarkRuns | strings.go:45 | the pass only inserts '_' |
| Strings.LettersDashToUnderscore | strings.go:50 | replacing dashes keeps every other character |
| Strings.LettersCollapse | strings.go:50 | collapsing only removes '_' |
| Strings.SnakeCaseKeepsLetters | strings.go:39-51 | deleting every '_' and '-' from input and output gives the same string: letters are never dropped, reordered or recased |
| Strings.SnakeCaseLowerThen | strings.go:39-51 | lower-case text followed by a part the pass marks in front is joined to it by exactly one '_' |
| Strings.LowerThenClean | strings.go:50 | such a join has no dash and no doubled '_' |
| Strings.SnakeCaseLowerRunLower | strings.go:39-51 | lower-case text, a run of capitals and then lower case get one boundary before the run |
| Strings.SnakeCaseMarkedDash | strings.go:45-50 | after the pass, a dash before a marked word becomes a single '_' |
| Strings.SnakeCaseWordDashWord | strings.go:39-51 | "Word-Word" becomes "Word_Word" |
| Strings.SnakeCaseOfWord | strings.go:39-51 | "test" gives "test" |
| Strings.SnakeCaseOfCapitalisedWords | strings.go:39-51 | "OhPleaseFormatMe" gives "Oh_Please_Format_Me" |
| Strings.SnakeCaseOfCamelCase | strings.go:39-51 | "listCount" gives "list_Count" |
| Strings.SnakeCaseOfDashes | strings.go:39-51 | "List-Of_thing" gives "List_Of_thing" |
| Strings.SnakeCaseOfAcronym | strings.go:39-51 | "getHTTPSValue" gives "get_HTTPSValue": the acronym run gets one boundary |
| Strings.SnakeCaseNotIdempotent | strings.go:50 | "___" gives "_" and then "": applying `SnakeCase` twice differs from once |
| Strings.MarkRunsOfWords | strings.go:12 | capitalised words written together are each marked once |
| Strings.JoinOfWordsIsClean | strings.go:50 | words joined by '_' contain no dash and no doubled '_', and neither start nor end with '_' |
| Strings.SnakeCaseOfWords | strings.go:39-51 | capitalised words written together come out separated by single '_' |
| Strings.SnakeCaseOfThreeWords | strings.go:39-51 | three capitalised words come out separated by '_' |
| Strings.SnakeCaseOfFourWords | strings.go:39-51 | four capitalised words come out separated by '_' |
| Strings.LettersToUpper | flag.go:76 | upper-casing commutes with deleting '_' and '-' |
| Strings.Quote | usage.go:94 | `%q` of plain text: the text between two double quotes |
| Strings.Join | slices.go:26 | joining no parts gives the empty string |
| Overrides.DefaultStaticValue | override.go:19-27 | the result is the static value or the value of some override in the list |
| Overrides.NewOverride | override.go:12-17 | an override holds exactly the given name and value |
| Overrides.DefaultStaticValueEmpty | override.go:19-27 | no overrides gives the static value |
| Overrides.FirstMatchWins | override.go:20-24 | the first override whose name matches ignoring case gives the result |
| Overrides.NoMatchKeepsStatic | override.go:19-27 | without a matching override the static value is kept |
| Overrides.LaterOverridesIgnored | override.go:20-24 | overrides after a match never change the result |
| Overrides.PrependNonMatching | override.go:20-24 | prepending an override whose name does not match changes nothing |
| Overrides.CaseInsensitiveName | override.go:21 | names equal ignoring case resolve alike |
| Overrides.EqualFold | override.go:21 | `strings.EqualFold` on ASCII: equal names match, and matching names have the same length |
| Overrides.EqualFoldIsEquivalence | override.go:21 | case-insensitive equality is reflexive, symmetric and transitive |
| Overrides.EqualFoldExample | override.go:21 | "Name" matches "name" and "NAME" but not "names" |
| Strconv.Pow2 | flag.go:107 | powers of two are positive |
| Strconv.ParseUint | flag.go:131 | accepted exactly when non-empty, all digits and below 2^bits; then the value is the decimal reading |
| Strconv.ParseInt | flag.go:107 | accepted exactly when an optional sign is followed by a non-empty digit string whose value is below 2^(bits-1), or at most 2^(bits-1) after a minus; the value is then the decimal reading, negated after a minus, and lies in [-2^(bits-1), 2^(bits-1)) |
| Strconv.ParseUintRejectsSign | flag.go:131 | unsigned parsing refuses a leading sign |
| Strconv.FormatUint | flag.go:131 | the printed form of a number is a non-empty digit string |
| Strconv.DecimalOfFormat | flag.go:131 | reading the printed form gives the number back |
| Strconv.ParseFormatUint | flag.go:131 | parsing the printed form of a value that fits gives the value |
| Strconv.ParseIntNegative | flag.go:107 | "-" followed by the digits of a value down to -2^(bits-1) is accepted as that negative value |
| Strconv.ParseIntFormat | flag.go:107 | the printed form of a value below 2^(bits-1), with or without a leading plus, is read back as that value |
| Strconv.Pow2Add | flag.go:107 | 2^(a+b) = 2^a * 2^b |
| Strconv.ParseUintExample | flag.go:131 | "6000" is accepted within 32 bits |
| Strconv.ParseRejectExamples | flag.go:131 | "-6000" is refused as unsigned, "test" as either |
| Flags.GetNameAndEnv | flag.go:74-77 | the flag name is the prefix followed by the capitalised name; the variable name has no lower-case letter and no '-'; its letters are those of the capitalised set and flag names, upper-cased |
| Flags.GetNameAndEnvWithEnv | slices.go:56 | an explicit variable name is used verbatim, an empty one falls back to the derived name; the flag name is unaffected |
| Flags.FormatLabel | flag.go:79-93 | the group is the prefix if there is one, else the documentation prefix, and the bracketed part is left out when both are empty |
| Flags.FormatLabelEnding | flag.go:90 | the label always ends with the label text followed by " {ENV}" |
| Flags.DefaultValue | slices.go:59 | a set, parseable variable gives the parsed value; otherwise the static value |
| Flags.LookupEnv | flag.go:152-186 | the parsed variable if set and parseable, else the override lookup |
| Flags.LookupEnvSource | flag.go:152-186 | the result always comes from the variable, the static value or some override |
| Flags.LookupEnvString | flag.go:95-102 | a set variable is returned verbatim without consulting overrides; otherwise the override lookup |
| Flags.LookupEnvInt | flag.go:104-114 | the variable is used only if it is a decimal within 32 bits, and then the result is within 32 bits; otherwise the override lookup |
| Flags.LookupEnvInt64 | flag.go:116-126 | the same within 64 bits |
| Flags.LookupEnvUint | flag.go:128-138 | the variable is used only if it is unsigned, decimal and within 32 bits; otherwise the override lookup |
| Flags.LookupEnvUint64 | flag.go:140-150 | the same within 64 bits |
| Flags.LookupEnvUintBound | flag.go:128-138 | with a 32-bit default and 32-bit overrides the result is below 2^32 whatever the environment holds |
| Flags.LookupEnvIntBound | flag.go:104-114 | with 32-bit defaults the result lies in [-2^31, 2^31) whatever the environment holds |
| Flags.ParseString | flag.go:97-98 | a string variable always parses, to itself |
| Flags.Scalar | flag.go:26-72 | the flag is registered as the capitalised prefix and name with the first letter lowered; its default is the variable's parsed value when the derived variable is set and parses, else the first matching override, else the static value; its usage ends with the label text and " {ENV}", preceded by the bracketed prefix (or documentation prefix) when there is one |
| Flags.NamesOfPrefixedFlag | flag.go:28-77 | set "String", prefix "context", name "test" give the flag "contextTest" and the variable STRING_CONTEXT_TEST |
| Flags.SnakeCaseOfSetAndFlag | flag.go:76 | "StringContextTest" gives "String_Context_Test" |
| Flags.SnakeCaseOfDashedSet | flag.go:76 | "My-cliUrl" gives "My_cli_Url" |
| Flags.SnakeCaseTwoMarked | strings.go:45-50 | when the pass marks two parts, `SnakeCase` is the rewrite of the two parts joined by '_' |
| Flags.EnvNameWithDash | flag.go:74-77 | set "my-cli" and name "url" give the flag "Url" and the variable MY_CLI_URL |
| Slices.IndexFrom | slices.go:64 | the first occurrence of the separator at or after a position, or -1 when there is none |
| Slices.Split | slices.go:64 | an empty separator splits into one piece per character, each that character; otherwise the first piece ends at the leftmost occurrence, and no piece holds an occurrence of the separator |
| Slices.JoinSplit | slices.go:64 | joining the pieces with the separator gives the input back |
| Slices.JoinSingles | slices.go:64 | the single characters join back to the input |
| Slices.SplitJoin | slices.go:64 | splitting joined parts that do not contain the separator's first character gives the parts back |
| Slices.FirstPieceEnds | slices.go:64 | the first occurrence after a piece without the separator's first character is right after that piece |
| Slices.NoOccurrenceWithout | slices.go:64 | text without the separator's first character holds no occurrence |
| Slices.SplitEnv | slices.go:59-65 | the string parser gives [] for empty input; otherwise pieces that join back to the input, single characters for an empty separator, none holding the separator otherwise |
| Slices.StringListParser | slices.go:59-65 | the string-list parser never reports an error; it gives [] for an empty variable and pieces that join back to it otherwise |
| Slices.ParseEach | slices.go:144-157 | succeeds iff every piece parses; then one value per piece, each that piece's parse |
| Slices.ParseFloatList | slices.go:139-158 | the float parser loop: [] for empty input, else the all-or-nothing parse of the pieces |
| Slices.FloatListParser | slices.go:139-143 | the float-list parser reads an empty variable as [] |
| Slices.FloatListParserAllOrNothing | slices.go:144-157 | a non-empty variable is read exactly when every piece parses, as the pieces' values in order; otherwise it is refused as a whole |
| Slices.Slot.constructor | slices.go:47 | a new slot holds the given list |
| Slices.StringSliceValue.constructor | slices.go:15-19 | the default is stored into the target, and the adapter starts unedited |
| Slices.StringSliceValue.String | slices.go:21-27 | "" iff the list is empty; otherwise between brackets, the elements joined by ", " |
| Slices.StringReadsBack | slices.go:21-27 | for elements without ',' the text between the brackets splits back into the list |
| Slices.StringSliceValue.Set | slices.go:33-43 | the first call clears the default and appends, later calls append; the adapter is then edited |
| Slices.SetEach | slices.go:33-43 | from any default, Set(v1)…Set(vn) on an unedited adapter leaves exactly [v1..vn] |
| Slices.Float64SliceValue.constructor | slices.go:81-85 | the default is stored, unedited |
| Slices.Float64SliceValue.Set | slices.go:108-123 | clears on the first call even when the parse then fails; appends only a parsed value; reports whether the parse succeeded |
| Slices.SliceNames | slices.go:69-73 | the lowered flag name, preceded by the lowered prefixed shorthand when there is one |
| Slices.SliceUsage | slices.go:57 | the help text of a list flag starts with the formatted label and ends with the quoted separator |
| Slices.Bind | slices.go:69-73 | every name is bound with the same usage to the same adapter |
| Slices.StringSliceVar | slices.go:54-74 | the resolved default is stored into the output; the shorthand and the name are bound to one fresh, unedited adapter over it |
| Slices.StringSlice | slices.go:45-52 | a fresh output holds the resolved default; the shorthand (if any) and the name are bound, with the list usage, to one fresh unedited adapter over that output |
| Slices.FloatDefault | slices.go:139-158 | the float default: the parsed list when the variable is set and every piece parses, else the static list |
| Slices.Float64SliceVar | slices.go:134-167 | as `StringSliceVar`, with the float parser |
| Slices.Float64Slice | slices.go:125-132 | as `StringSlice`, with the float parser: one fresh unedited adapter over the fresh output, bound under every name |
| Slices.EnvListReplacesDefault | slices_test.go:42-51 | for the flag "labels" of set "StringSlice", the derived variable STRING_SLICE_LABELS holding "env" and "found" separated by a vertical bar replaces the default ["test", "flags"] by ["env", "found"] |
| Slices.NamesOfLabels | slices.go:56 | set "StringSlice" and name "labels" give the flag "Labels" and the variable STRING_SLICE_LABELS |
| Slices.ExplicitEnvName | slices.go:56-65 | env "MATCHES" set to "info,error" gives ["info", "error"] |
| Slices.StringOfDefaults | slices.go:21-27 | ["Authorization", "Content-Type"] prints as "[Authorization, Content-Type]" |
| Builders.New | builder.go:18-24 | the capitalised name, the label and the "," separator; prefix, documentation prefix, shorthand and env empty |
| Builders.Builder.Shorthand | builder.go:26-30 | sets the shorthand; every other field is unchanged |
| Builders.Builder.Prefix | builder.go:32-36 | sets the prefix; every other field is unchanged |
| Builders.Builder.DocPrefix | builder.go:38-42 | sets the documentation prefix; every other field is unchanged |
| Builders.Builder.Env | builder.go:44-48 | sets the variable name; every other field is unchanged |
| Builders.Builder.EnvSeparator | builder.go:50-54 | sets the separator; every other field is unchanged |
| Builders.LastWriteWins | builder.go:26-54 | setting a field twice keeps the second value |
| Builders.SettersCommute | builder.go:26-54 | setters of different fields commute |
| Builders.Builder.ScalarArguments | builder.go:56-86 | the typed methods forward prefix, documentation prefix, name, shorthand, label and env unchanged |
| Builders.SeparatorNotForwarded | builder.go:56-86 | the separator never reaches the scalar registrars |
| Builders.Builder.StringSlice | builder.go:88-90 | forwards the six fields and the separator to the list registrar: a fresh output with the resolved default, bound under the lowered names to one fresh unedited adapter |
| Builders.ChainedSetters | builder.go:18-54 | New("labels", …).DocPrefix("metadata") with a vertical-bar separator is the expected record |
| Usage.AddNameTo | usage.go:15-22 | a name shorter than the first-seen flag's name becomes the shorthand; otherwise it becomes the name and the first-seen name the shorthand |
| Usage.Flag.constructor | usage.go:34-37 | a new entry holds the flag and its name, with no shorthand |
| Usage.Flag.AddName | usage.go:15-22 | updates the entry in place as `AddNameTo` says; the flag is not changed |
| Usage.AddNameEitherOrder | usage.go:15-22 | a short and a long name with the same text merge to the same row in either order |
| Usage.Grouped | usage.go:26-39 | after a flag is visited its help text has a group; `GroupedKeys` gives the whole key set |
| Usage.GroupedKeys | usage.go:26-39 | one group per distinct help text, and no other |
| Usage.GroupedMembers | usage.go:26-39 | each group's flag has that help text and is registered; its name and shorthand are names registered with it |
| Usage.ShorthandGroup | usage.go:26-39 | "n" then "namespace" with one text make one group with name "namespace" and shorthand "n" |
| Usage.GroupFlags | usage.go:26-39 | the map filled in place matches the grouping function |
| Usage.Less | usage.go:58 | string order: a string is never below itself |
| Usage.LessIrreflexive | usage.go:58 | string order is irreflexive |
| Usage.LessTransitive | usage.go:58 | string order is transitive |
| Usage.LessTotal | usage.go:58 | any two strings are equal or ordered |
| Usage.LessAsymmetric | usage.go:58 | string order is asymmetric |
| Usage.LessThenAtMost | usage.go:58 | a < b <= c gives a < c |
| Usage.AtMostTransitive | usage.go:58 | a <= b <= c gives a <= c |
| Usage.SearchAfter | usage.go:57-59 | the first index whose name is strictly greater: not greater before it, greater from it on |
| Usage.Insert | usage.go:61-63 | the item lands at the index and the rest shift right by one |
| Usage.InsertKeepsSorted | usage.go:57-63 | inserting at the searched index keeps the list sorted, and adds exactly that item |
| Usage.MaxUnique | usage.go:65-76 | the greatest length is unique |
| Usage.MaxAfterInsert | usage.go:65-76 | inserting lifts the greatest length to the new item's if it is greater |
| Usage.InsertStep | usage.go:55-63 | one insertion keeps the list sorted and each visited group present exactly once |
| Usage.SortGroups | usage.go:55-81 | the list is sorted by name and holds every group exactly once; the name and type widths are the maxima; the shorthand width is the maximum plus 3 when positive, else 0 |
| Usage.Header | usage.go:49-53 | "Usage of NAME:\n", or "Usage:\n" for a set without a name |
| Usage.PadRight | usage.go:87 | the text, then spaces up to the width; never cut |
| Usage.ShorthandCell | usage.go:86-87 | "-X, " when there is a shorthand X: a dash, the shorthand, then a comma and a space; otherwise empty |
| Usage.DefaultSuffix | usage.go:92-98 | empty iff the default text is empty; otherwise " (default …)", quoted for a string flag |
| Usage.Cells | usage.go:87-89 | the cells start and end with two spaces and are at least as wide as the help column, exactly as wide when every cell fits |
| Usage.Row | usage.go:83-100 | a row starts with its cells and ends with a newline |
| Usage.CellsLayout | usage.go:86-90 | when every cell fits, "--" follows the shorthand column, the name follows it, and the help text starts at the same column |
| Usage.RowLayout | usage.go:86-100 | the row holds "--", the name and the help text at those columns |
| Usage.WidthsFit | usage.go:65-81 | with the measured widths every row's cells fit their columns |
| Usage.RenderRows | usage.go:83-101 | the rows of all groups, in order |
| Usage.Rows | usage.go:83-101 | the rows are empty exactly when there are no groups, and otherwise end with a newline |
| Usage.Usage | usage.go:24-103 | the header, then one row per distinct help text, sorted by name, in columns as wide as the widest cell |

## Left out

- `Sha` (strings.go:53-60): this SHA-256 hex digest is a foreign library. Groups are keyed by the help text itself, which the digest only stands in for.
- Floating point: `strconv.ParseFloat`, `LookupEnvFloat64` and `float64Slice.String` with `%f` (slices.go:87-102). The float type is a type parameter with a parser parameter, and float rendering is not modelled.
- `strconv.ParseBool` and `time.ParseDuration`: `LookupEnvBool` and `LookupEnvDuration` are `Flags.LookupEnv` with the parser passed in.
- The `flag.FlagSet` registry, `fs.Var`/`fs.String`, `fs.Parse` and `VisitAll` belong to the standard library. `Scalar` and the list registrars return what they would register; the help printer takes the visited records as a sequence.
- `flag.UnquoteUsage` is a parameter.
- `os.LookupEnv` is a map parameter.
- Writing to the output: the help printer returns the text it would write.
- Case mapping and `strings.EqualFold` cover ASCII only, matching the `[A-Z]` class of the pattern at strings.go:12.
- Usage.AddNameTo, Usage.NameLen, Usage.ShorthandLen, Usage.TypeLen, Usage.ColumnWidths, Usage.PadRight: names, shorthands and type names are taken as ASCII. usage.go compares and measures with `len`, which counts bytes, while `%-Ns` pads by characters; the model counts characters for both, so it does not capture how non-ASCII names are measured and padded.
- Slices.StringSliceValue.constructor, Slices.StringSliceValue.Set, Slices.Float64SliceValue.Set: in Go the default list is stored without a copy, and the first `Set` truncates it with `[:0]` and appends into the same backing array. A caller that still holds the default slice, or the override value it came from, sees its elements overwritten. The model's `Slot` holds a value sequence private to the flag, so it does not capture that aliasing.
- `%q` escaping is not modelled: quoting is plain double quotes around the text.
- The panic on an override of the wrong type (flag.go:191, override.go:22) cannot occur: override lists are typed.
- The example programs under cmd/ are not modelled. They are entry points.
- Flags.LookupEnvIntBound, Flags.LookupEnvUintBound: Go's `int` and `uint` are as wide as the platform word, usually 64 bits, while flag.go:107 and flag.go:131 parse the variable within 32 bits. The model's integers are unbounded, and these lemmas assume a 32-bit default and 32-bit overrides, which they require; a wider default passes through unchanged.
- Builders.Builder.ScalarArguments: builder.go's `String`, `Int`, … call registrars of a newer signature (with shorthand and env) that this revision of flag.go does not have. The model states what is forwarded, not a registration.
- `stringSlice.Get` and `float64Slice.Get` are modelled as functions and need no contract.
- Usage.Usage: usage.go keeps pointers to `Flag` entries in the sorted list. The model sorts the entries' values once the grouping is done, so it does not capture aliasing between the map and the list.
- Map iteration order in `Usage` is arbitrary: the model picks any remaining key, so every order is covered.
