# Configuration patchers of ryokai, in Dafny

This project models the text and tree patchers that ryokai uses to change
a node's configuration files without parsing them fully:

- **`toml.SetTomlVar`** (`pkg/ryokaicommon/utils/toml/toml.go`). It sets
  `name = value` on the first line of a TOML text that assigns `name`. With
  a tag, it looks only from the first line that mentions `[tag]` onward.
  The value is quoted unless it is a boolean or an integer.
- **`base.IsBool` / `base.IsNumber`** (`pkg/ryokaicommon/utils/base/base.go`).
  These are the classifiers `formatValue` relies on: Go's
  `strconv.ParseBool` and `strconv.ParseInt(s, 0, 64)` written out.
- **`json.UpdateJSONValue` / `setNested`** (`pkg/ryokaicommon/utils/json/json.go`).
  The dot-separated key path is followed through nested objects and the last
  key is written into the innermost one.
- **The older `SetTomlVar` of the sekaid plugin** and its helpers
  (`pkg/plugin/sekaid/oldKM2RepoSekaidInit.go`). It finds the line by raw
  substrings and quotes values by a different rule. The `applyNewConfig`
  loop folds it over a batch of updates and skips the ones that fail.

## Modules

| Module | File | Contents |
|---|---|---|
| `Wrappers` | `wrappers.dfy` | `Option` and `Result`. |
| `Strings` | `strings.dfy` | Go's `TrimSpace`, `HasPrefix`, `HasSuffix`, `Contains`, `Split` and `Join` over `seq<char>`, plus their algebra: split/join round trips and replacing one piece of a joined text. |
| `Base` | `base.dfy` | `IsBool` and `IsNumber`. |
| `Lines` | `lines.dfy` | Line predicates: "trimmed line starts with `name =`" and "contains". Also the first-match search functions over a line list. |
| `Toml` | `toml.dfy` | The newer patcher. `SearchLine` is the loop of `searchLine`, proved against the specification function `ScopedKeyLine`. `SetTomlVar` is proved against `Patched`. |
| `JsonPath` | `json.dfy` | A JSON value tree. `SetNested` is the loop of `setNested`, proved against `SetPath`, which is defined by `Get`/`SetAt` along the path. `UpdateJsonValue` is the decoded-document entry point. |
| `Sekaid` | `sekaid.dfy` | The older patcher. `ScanLines` is its scan loop, `FormatValueChain` its quoting chain and `SetTomlVar` the whole operation, each proved against a function. `ApplyNewConfig` is the batch loop, proved against the fold `ApplyAll`. |

Two places where the code and its own comments or tests disagree; the
model follows the code in both:

- The doc comment of the older `SetTomlVar`
  (`oldKM2RepoSekaidInit.go:331`) says a tag that is not found falls back
  to the base section. The code returns `ConfigurationVariableNotFoundError`
  instead, because no name line is ever recorded before a tag line. This is
  proved by `Sekaid.OldMissingTagFails`.
- The doc comment of `setNested` (`json.go:54`) and the "Key not found"
  case of `json_test.go:39-43` expect an error when the last key is
  missing. The code (`json.go:70-71`) simply inserts it, which is proved by
  `JsonPath.SingleSegmentNeverFails` and `JsonPath.SetPathSuccess`. The
  test's error comparison at `json_test.go:94` is inverted, so that case
  passes anyway.

## Model

| member | source | states |
|---|---|---|
| Strings.TrimLeftShape | pkg/ryokaicommon/utils/toml/toml.go:58-60 | Trimming the front keeps a suffix of the text. Everything removed is white space and the kept part does not start with white space. |
| Strings.TrimRightShape | pkg/ryokaicommon/utils/toml/toml.go:58-60 | Trimming the back keeps a prefix of the text. Everything removed is white space and the kept part does not end with white space. |
| Strings.TrimSpaceShape | pkg/ryokaicommon/utils/toml/toml.go:58-60 | `TrimSpace` yields a contiguous slice of its input whose first and last characters are not white space. |
| Strings.TrimSpaceNoBorder | pkg/ryokaicommon/utils/toml/toml.go:58-60 | A text with no white space at either end is left unchanged by `TrimSpace`. |
| Strings.TrimSpaceEmpty | pkg/plugin/sekaid/oldKM2RepoSekaidInit.go:401-403 | Trimming leaves nothing if and only if every character is white space. |
| Strings.HasPrefixConcat | pkg/plugin/sekaid/oldKM2RepoSekaidInit.go:417-420 | `HasPrefix(s, p)` holds if and only if `s` is `p` followed by some text. |
| Strings.HasSuffixConcat | pkg/plugin/sekaid/oldKM2RepoSekaidInit.go:422-425 | `HasSuffix(s, x)` holds if and only if `s` is some text followed by `x`. |
| Strings.ContainsConcat | pkg/plugin/sekaid/oldKM2RepoSekaidInit.go:427-430 | `Contains(s, sub)` holds if and only if `s` is some text, then `sub`, then some text. |
| Strings.ContainsMiddle | pkg/plugin/sekaid/oldKM2RepoSekaidInit.go:427-430 | A text built around `sub` contains `sub`. |
| Strings.ContainsChar | pkg/ryokaicommon/utils/toml/toml.go:121 | Containing the one-character string `[c]` is the same as `c` occurring in the text. |
| Strings.ContainsChars | pkg/plugin/sekaid/oldKM2RepoSekaidInit.go:427-430 | Every character of a contained substring occurs in the text. |
| Strings.Split | pkg/ryokaicommon/utils/toml/toml.go:64 | `strings.Split` on one character returns at least one piece, and no piece holds the separator. |
| Strings.JoinCons | pkg/ryokaicommon/utils/toml/toml.go:75 | Prefixing the first piece prefixes the joined text. |
| Strings.JoinSplit | pkg/ryokaicommon/utils/toml/toml.go:64-75 | Joining the pieces of a split gives back the original text. |
| Strings.SplitNoSep | pkg/ryokaicommon/utils/toml/toml.go:64 | A text without the separator splits into itself alone. |
| Strings.SplitAtSep | pkg/ryokaicommon/utils/toml/toml.go:64 | Splitting `a + sep + b` gives `a` followed by the pieces of `b` when `a` has no separator. |
| Strings.SplitJoin | pkg/ryokaicommon/utils/toml/toml.go:64-75 | Splitting the join of separator-free pieces gives back the pieces. |
| Strings.JoinAround | pkg/ryokaicommon/utils/toml/toml.go:75 | A joined text is the text before piece `k`, then piece `k`, then the text after it. |
| Strings.JoinReplace | pkg/ryokaicommon/utils/toml/toml.go:73-75 | Replacing piece `k` and joining changes only piece `k`'s span of the text. |
| Strings.JoinTake | pkg/ryokaicommon/utils/json/json.go:59 | The join of all pieces is the join of the first `n` pieces followed by the rest. |
| Strings.JoinPrefix | pkg/ryokaicommon/utils/json/json.go:59 | The join of the first `n` pieces is a prefix of the full join. When pieces remain, that prefix is followed by a separator. |
| Base.IsBool | pkg/ryokaicommon/utils/base/base.go:6-10 | Accepts exactly the twelve literals of `strconv.ParseBool`: `1 t T TRUE true True 0 f F FALSE false False`. |
| Base.IsNumber | pkg/ryokaicommon/utils/base/base.go:13-16 | Accepts what `strconv.ParseInt(s, 0, 64)` accepts. That is an optional sign, then one of three forms: a `0b`/`0o`/`0x` prefix (only when the unsigned text has 3 characters or more), a leading `0` for octal, or decimal digits. Every character must then be a digit of the base or `_`, placed as `underscoreOK` allows, and the value must be below 2^63, or at most 2^63 after `-`. |
| Base.DecimalValueBound | pkg/ryokaicommon/utils/base/base.go:13-16 | A string of `n` decimal digits has a value below 10^n. |
| Base.DecimalIsNumber | pkg/ryokaicommon/utils/base/base.go:13-16 | Every optionally signed decimal of 1 to 18 digits without a leading zero is a number. |
| Base.DecimalRangeOf | pkg/ryokaicommon/utils/base/base.go:13-16 | For a decimal without a leading zero, in one signed form, `IsNumber` reduces to the 64-bit range check on its value. |
| Base.DecimalRange | pkg/ryokaicommon/utils/base/base.go:13-16 | A decimal without a leading zero is a number exactly when its value is below 2^63, unsigned or after `+`, or at most 2^63 after `-`. So `9223372036854775807` and `-9223372036854775808` are numbers and `9223372036854775808` is not. |
| Base.ScanRejectsLeadingUnderscore | pkg/ryokaicommon/utils/base/base.go:13-16 | Without a base prefix, digits that begin with `_` are rejected. |
| Base.NumberLead | pkg/ryokaicommon/utils/base/base.go:13-16 | Anything `IsNumber` accepts begins with a sign or a decimal digit. |
| Base.BoolLead | pkg/ryokaicommon/utils/base/base.go:6-10 | Anything `IsBool` accepts begins with one of `0 1 t T f F`. |
| Base.NumberHasNoBlank | pkg/ryokaicommon/utils/base/base.go:13-16 | A number holds no space and does not start with white space. |
| Base.BoolHasNoBlank | pkg/ryokaicommon/utils/base/base.go:6-10 | No boolean literal holds a space. |
| Base.KindHasNoBlank | pkg/ryokaicommon/utils/base/base.go:6-16 | A boolean or a number is non-empty, does not start with white space and holds no space. |
| Base.DecimalExamples | pkg/ryokaicommon/utils/base/base.go:13-16 | `8000`, `8010` and `-3` are numbers. |
| Base.OctalExamples | pkg/ryokaicommon/utils/base/base.go:13-16 | `0` and `010` are numbers (octal). `08` is not. |
| Base.PrefixExamples | pkg/ryokaicommon/utils/base/base.go:13-16 | `0x1F` and `1_000` are numbers: base prefixes and underscores under base 0. |
| Base.UnderscoreExamples | pkg/ryokaicommon/utils/base/base.go:13-16 | `1__000` and `_1` are not numbers. |
| Base.RejectedExamples | pkg/ryokaicommon/utils/base/base.go:13-16 | The empty string, `+`, `new` and `1.5` are not numbers. |
| Base.NewIsNeitherKind | pkg/ryokaicommon/utils/base/base.go:6-16 | `new` is neither a boolean nor a number. |
| Base.BoolExamples | pkg/ryokaicommon/utils/base/base.go:6-10 | `true` and `false` are booleans. `new` is not. |
| Lines.FirstKeyLine | pkg/ryokaicommon/utils/toml/toml.go:105-106 | The first line at or after `from` whose trimmed text starts with `name =`, with no earlier such line. None when there is no such line. |
| Lines.FirstTagLine | pkg/ryokaicommon/utils/toml/toml.go:98-102 | The first line at or after `from` whose trimmed text contains the tag. None when there is no such line. |
| Lines.FirstContaining | pkg/plugin/sekaid/oldKM2RepoSekaidInit.go:354-364 | The first raw line at or after `from` that contains a substring. None when there is no such line. |
| Lines.FirstKeyLineIs | pkg/ryokaicommon/utils/toml/toml.go:105-106 | A key line with no key line before it is the one `FirstKeyLine` finds. |
| Lines.FirstTagLineIs | pkg/ryokaicommon/utils/toml/toml.go:98-102 | A tag line with no tag line before it is the one `FirstTagLine` finds. |
| Lines.FirstContainingIs | pkg/plugin/sekaid/oldKM2RepoSekaidInit.go:354-364 | A containing line with none before it is the one `FirstContaining` finds. |
| Lines.KeyLineHasName | pkg/ryokaicommon/utils/toml/toml.go:105 | No line is a key line for the empty name, because a trimmed line never starts with ` =`. |
| Lines.KeyLineNameOneLine | pkg/ryokaicommon/utils/toml/toml.go:105 | The name of a single-line key line has no line break. |
| Lines.AssignmentIsKeyLine | pkg/ryokaicommon/utils/toml/toml.go:73 | A written `name = value` line is itself a key line for `name` when name and value have no white space at their outer ends. |
| Toml.FormatTag | pkg/ryokaicommon/utils/toml/toml.go:79-85 | The result is empty exactly for the empty tag. Any other tag is wrapped in `[` and `]`. |
| Toml.FormatValue | pkg/ryokaicommon/utils/toml/toml.go:119-131 | The result is the value or the value in quotes, and it is the bare value exactly when the value is a boolean or a number. The empty-or-blank case never keeps a value bare, since no boolean or number is empty or holds a blank. |
| Toml.FormatValueRequotes | pkg/ryokaicommon/utils/toml/toml.go:119-131 | A value already starting with `"` is quoted once more. |
| Toml.FormatValueBorders | pkg/ryokaicommon/utils/toml/toml.go:60-71 | A formatted trimmed value is never empty (the empty value gets quotes) and does not end in white space. |
| Toml.ScopeStart | pkg/ryokaicommon/utils/toml/toml.go:90-103 | The scope law: line `j` is in scope (the tag is empty, or some line before `j` holds the tag) if and only if a start exists and lies at or before `j`. |
| Toml.ScopedKeyLineIsFirstInScope | pkg/ryokaicommon/utils/toml/toml.go:95-108 | The chosen line is `k` if and only if `k` is in scope, is a key line, and no in-scope line before it is a key line. |
| Toml.ScopedKeyLineNoneIsNoneInScope | pkg/ryokaicommon/utils/toml/toml.go:95-114 | No line is chosen if and only if no in-scope line is a key line. |
| Toml.SearchLine | pkg/ryokaicommon/utils/toml/toml.go:89-115 | The loop returns the chosen line's index, or `VariableNotFoundError(name, tag)` when there is none. |
| Toml.SetTomlVar | pkg/ryokaicommon/utils/toml/toml.go:57-76 | The patcher's result equals the specification `Patched`. |
| Toml.PatchedReplacesOneLine | pkg/ryokaicommon/utils/toml/toml.go:64-75 | On success the output is the text before the chosen key line, then `name = formatted value`, then the text after it. |
| Toml.PatchedFails | pkg/ryokaicommon/utils/toml/toml.go:66-69 | The patcher fails if and only if no in-scope line assigns `name`. The error carries the trimmed name and the bracketed tag. |
| Toml.EmptyDocumentFails | pkg/ryokaicommon/utils/toml/toml.go:57-76 | An empty document always fails, with or without a tag. |
| Toml.ScopedKeyLineKept | pkg/ryokaicommon/utils/toml/toml.go:89-115 | Replacing the chosen line by another key line for the same name keeps it the chosen line. |
| Toml.PatchedLines | pkg/ryokaicommon/utils/toml/toml.go:64-75 | For a value without line breaks, the output's lines are the input's lines with only the chosen one replaced. |
| Toml.PatchedIdempotent | pkg/ryokaicommon/utils/toml/toml.go:57-76 | Setting the same variable twice gives the same text as setting it once. |
| Toml.NumberStaysBare | pkg/ryokaicommon/utils/toml/toml.go:124-126 | `8010` is written bare. |
| Toml.BoolStaysBare | pkg/ryokaicommon/utils/toml/toml.go:124-126 | `true` is written bare. |
| Toml.WordQuoted | pkg/ryokaicommon/utils/toml/toml.go:127-129 | `new` is written in quotes. |
| Toml.BlankValueQuoted | pkg/ryokaicommon/utils/toml/toml.go:121-123 | Any value holding a blank is written in quotes. |
| Toml.NoBracketNoTagLine | pkg/ryokaicommon/utils/toml/toml.go:98 | A line without `[` is never taken for the line of a bracketed tag. |
| Toml.TagIsTagLine | pkg/ryokaicommon/utils/toml/toml.go:98 | A line holding just a tag with no white space at its ends is a tag line for it. |
| Toml.ComplexTagLine | pkg/ryokaicommon/utils/toml/toml_test.go:81-89 | In the tests' two-section document, the first line holding `[tag1]` is line 2. |
| Toml.ComplexKeyLine | pkg/ryokaicommon/utils/toml/toml_test.go:81-98 | In that document, the line chosen for `variable` in `[tag1]` is line 3, the one under `[tag1]`. |
| JsonPath.GetAppend | pkg/ryokaicommon/utils/json/json.go:56-68 | Following `p + q` is following `p`, then `q` from where `p` leads. |
| JsonPath.GetStep | pkg/ryokaicommon/utils/json/json.go:57-67 | Following `p + [k]` reaches the field `k` of the object `p` reaches, and nothing otherwise. |
| JsonPath.SettableTail | pkg/ryokaicommon/utils/json/json.go:56-68 | A settable path of two or more keys starts at an existing key of an object, and its rest is settable there. |
| JsonPath.SetAt | pkg/ryokaicommon/utils/json/json.go:70-71 | Writing at a non-empty path yields an object. |
| JsonPath.GetSetSame | pkg/ryokaicommon/utils/json/json.go:70-71 | After writing `v` at path `p`, following `p` reaches `v`. |
| JsonPath.GetSetOther | pkg/ryokaicommon/utils/json/json.go:70-71 | Writing at `p` changes nothing at any path `q` that diverges from `p`. |
| JsonPath.SetAtSettable | pkg/ryokaicommon/utils/json/json.go:70-71 | A path stays settable after a write at it. |
| JsonPath.SetAtIdempotent | pkg/ryokaicommon/utils/json/json.go:70-71 | Writing the same value at the same path twice is the same as once. |
| JsonPath.SetAtLast | pkg/ryokaicommon/utils/json/json.go:67-71 | A write at a path rebuilds the parent path with the parent object's field set. This is the in-place write into the innermost map. |
| JsonPath.FirstBlocked | pkg/ryokaicommon/utils/json/json.go:56-65 | The first intermediate segment whose prefix does not reach an object, with none before it. None when every intermediate segment reaches one. |
| JsonPath.UnblockedSettable | pkg/ryokaicommon/utils/json/json.go:56-71 | When no intermediate segment is blocked, the whole path can be written. |
| JsonPath.SetNested | pkg/ryokaicommon/utils/json/json.go:55-74 | The loop yields exactly `SetPath`: the first blocked segment's error, or the tree with the value written at the path. |
| JsonPath.FirstBlockedIs | pkg/ryokaicommon/utils/json/json.go:56-65 | A blocked segment with none blocked before it is the one the walk stops at. |
| JsonPath.SetPathSuccess | pkg/ryokaicommon/utils/json/json.go:55-74 | Success holds if and only if no intermediate segment is blocked. The result then reaches the value at the path and is unchanged at every diverging path. |
| JsonPath.SetPathFailure | pkg/ryokaicommon/utils/json/json.go:57-65 | At the first blocked segment, the parent is an object. A missing key gives `TargetKeyNotFoundError`, a non-object value gives `ExpectedMapError`, and either error's key is the dot-join of the path up to that segment. |
| JsonPath.SingleSegmentNeverFails | pkg/ryokaicommon/utils/json/json.go:70-71 | A one-segment path always succeeds, inserting or overwriting the key. |
| JsonPath.SetPathIdempotent | pkg/ryokaicommon/utils/json/json.go:55-74 | Setting the same value twice is the same as once. |
| JsonPath.ErrorKeyIsPrefix | pkg/ryokaicommon/utils/json/json.go:37-64 | An error's key is a leading part of the configured key that stops just before a dot. |
| JsonPath.UpdateJsonValue | pkg/ryokaicommon/utils/json/json.go:29-50 | An object document gets `SetPath` on the key split at dots, and a path error is passed through. A null document fails, on a nil-map write or with a missing first key. Any other document is an unmarshal error. |
| JsonPath.NullDocumentFails | pkg/ryokaicommon/utils/json/json.go:56-60 | In an empty object, a path of two or more segments fails on its first key. |
| JsonPath.NestedArrayExample | pkg/ryokaicommon/utils/json/json_test.go:45-49 | A path through an array fails with `ExpectedMapError("level1.level2")`. |
| JsonPath.NestedUpdateExample | pkg/ryokaicommon/utils/json/json_test.go:24-30 | `nested.key` is overwritten inside the nested object. |
| JsonPath.IntermediateNotObjectExample | pkg/ryokaicommon/utils/json/json_test.go:63-68 | A string where an object is expected fails with `ExpectedMapError("level1")`. |
| Sekaid.IsNullOrWhitespace | pkg/plugin/sekaid/oldKM2RepoSekaidInit.go:401-403 | True if and only if every character is white space. |
| Sekaid.FormatOldValue | pkg/plugin/sekaid/oldKM2RepoSekaidInit.go:380-393 | The result is the value or the value in quotes. It is the bare value exactly when the value is a boolean or a number, or is not blank and is already quoted or bracketed. |
| Sekaid.FormatOldValueIdempotent | pkg/plugin/sekaid/oldKM2RepoSekaidInit.go:380-393 | Formatting a formatted value changes nothing. |
| Sekaid.ArrayValueKept | pkg/plugin/sekaid/oldKM2RepoSekaidInit.go:385 | The array literal `[ "*" ]` is kept, blank included. |
| Sekaid.QuotedValueKept | pkg/plugin/sekaid/oldKM2RepoSekaidInit.go:383-384 | A value already in quotes is kept. |
| Sekaid.OldWordQuoted | pkg/plugin/sekaid/oldKM2RepoSekaidInit.go:389-391 | `new` is quoted. |
| Sekaid.ScanLines | pkg/plugin/sekaid/oldKM2RepoSekaidInit.go:345-378 | The scan records a next-section line only after a name line. The name line is the one `OldScopedKeyLine` chooses, or -1 when it chooses none. |
| Sekaid.FormatValueChain | pkg/plugin/sekaid/oldKM2RepoSekaidInit.go:380-393 | The if-chain computes `FormatOldValue`. |
| Sekaid.SetTomlVar | pkg/plugin/sekaid/oldKM2RepoSekaidInit.go:332-399 | The older patcher's result equals the specification `OldPatched`. |
| Sekaid.OldBaseSectionChoice | pkg/plugin/sekaid/oldKM2RepoSekaidInit.go:347-364 | Without a tag, line `k` is chosen if and only if it is the first trimmed `name =` line, or there is none and `k ≥ 1` is the first raw line after line 0 containing `name =`. |
| Sekaid.OldTaggedChoice | pkg/plugin/sekaid/oldKM2RepoSekaidInit.go:354-364 | With a tag first mentioned on line `t`, line `k > t` is chosen if and only if it is the first line after `t` containing `name =`. |
| Sekaid.OldMissingTagFails | pkg/plugin/sekaid/oldKM2RepoSekaidInit.go:354-378 | A tag that no line contains gives `ConfigurationVariableNotFoundError`, with no fallback to the base section. |
| Sekaid.OldEmptyDocumentFails | pkg/plugin/sekaid/oldKM2RepoSekaidInit.go:343-378 | An empty document always fails. |
| Sekaid.OldPatchedReplacesOneLine | pkg/plugin/sekaid/oldKM2RepoSekaidInit.go:395-398 | On success, the output is the text before a line containing `name =`, then `name = formatted value`, then the text after it. |
| Sekaid.OldChosenLineMentions | pkg/plugin/sekaid/oldKM2RepoSekaidInit.go:349-364 | The chosen line always contains `name =`. |
| Sekaid.KeyLineContains | pkg/plugin/sekaid/oldKM2RepoSekaidInit.go:349 | A line whose trimmed text starts with `name =` contains `name =`. |
| Sekaid.NewLineShape | pkg/plugin/sekaid/oldKM2RepoSekaidInit.go:395 | The written line contains `name =`, and is a key line when name and value have no white space at their outer ends. |
| Sekaid.FormatOldValueBorders | pkg/plugin/sekaid/oldKM2RepoSekaidInit.go:335-393 | A formatted trimmed value is never empty (a blank value gets quotes) and does not end in white space. |
| Sekaid.OldScopedKeyLineKept | pkg/plugin/sekaid/oldKM2RepoSekaidInit.go:347-371 | Replacing the chosen line by one that still contains `name =`, and is still a key line if it was one, keeps it chosen. |
| Sekaid.OldPatchedLines | pkg/plugin/sekaid/oldKM2RepoSekaidInit.go:343-398 | For a value without line breaks, the output's lines are the input's lines with only the chosen one replaced. |
| Sekaid.OldPatchedIdempotent | pkg/plugin/sekaid/oldKM2RepoSekaidInit.go:332-399 | Setting the same variable twice gives the same text as once. |
| Sekaid.ApplyNewConfig | pkg/plugin/sekaid/oldKM2RepoSekaidInit.go:250-265 | The loop yields the fold `ApplyAll`: each update applied to the text the earlier ones left, with failing updates skipped. |
| Sekaid.ApplyAllFirst | pkg/plugin/sekaid/oldKM2RepoSekaidInit.go:252-265 | A batch applies its first update, then the rest to the result. |
| Sekaid.ApplyAllFailing | pkg/plugin/sekaid/oldKM2RepoSekaidInit.go:253-260 | Updates that all fail leave the text unchanged. |
| Sekaid.ApplyAllKeepsLineCount | pkg/plugin/sekaid/oldKM2RepoSekaidInit.go:250-265 | Updates whose values have no line breaks keep the number of lines. |

## Left out

- Sekaid.ScanLines: states the name line and the order of the next-section line, not the value recorded for the tag line, which only steers the scan.
- Byte-level JSON decoding and encoding (`json.Unmarshal`/`json.Marshal`, `json.go:32-47`). The document is given as a decoded tree. A document that decodes to something other than an object or `null` is the `UnmarshalError` case. Number precision and the ordering of keys on output are not modelled.
- The `null` document. Go decodes it into a nil map, and writing into a nil map panics. The model reads it as an empty object and returns `NilMapWrite` where the Go program would panic.
- In-place aliasing in `setNested`. The Go loop writes into the innermost map, which the outer maps share. The model rebuilds the tree along the path (`SetAt`), which yields the same final tree but does not represent the sharing.
- Strings are sequences of Unicode code points, not UTF-8 bytes. Invalid UTF-8 and the byte-wise scans of `TrimSpace`/`ParseInt` are not modelled; non-ASCII text is not a number either way.
- The text of the errors (`Error()` methods, `toml.go:48-50`, `json.go:76-82`, `oldKM2RepoSekaidInit.go:432-434`). Errors are modelled by their fields only.
- `IsBoolean`, `IsNumber`, `StrStartsWith`, `StrEndsWith` and `IsSubStr` of the sekaid file are one-line wrappers. They are modelled by `Base.IsBool`, `Base.IsNumber`, `Strings.HasPrefix`, `Strings.HasSuffix` and `Strings.Contains` instead of separate copies.
- The file transfer around `applyNewConfig` (`GetFileFromContainer` and `WriteFileDataToContainer`, `oldKM2RepoSekaidInit.go:244-248, 267-270`). The docker orchestration, the rest of the sekaid plugin (DNS, IP lookup, mnemonics, process exit) and `plugin.go` are not modelled either. This is I/O with no logic of the patchers in it: the fold takes the file text as a parameter and returns the new text.
- Logging calls are commented out in the source and have no counterpart.
