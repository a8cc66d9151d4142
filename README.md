# medik in Dafny

medik is a command-line health checker for a deployment environment. A YAML
configuration lists *exams*. Each exam has a tag such as `env.is-set`,
`env.int-range` or `file.is-dir`, and names the environment variables or
filesystem paths it examines. Exams can also be grouped into named
*protocols*, which run only when asked for. medik can first load a `.env`
file into the environment. It then runs the exams and prints one report per
exam at a severity level (OK, WARNING, ERROR).

This project models the core of that program and proves properties of it:

- the `.env` parser: line cleaning, comment trimming and key/value splitting;
- the tag dispatch, `category.kind`, to the `env` and `file` parser tables;
- the shared examination and parsing skeletons of the `env.*` and `file.*` exams;
- every modelled exam kind;
- report formatting;
- the runner, which combines base exams and protocols;
- the first-generation exams (`pkg/exams/env.go`) and the older rule API
  (`pkg/rules/env.go`), which live beside the current kinds.

The process environment is a `map<string, string>`. The filesystem is a map
from path to entry: its kind, its size and its directory listing. A stat of
a path succeeds iff the path is a key of that map. Go's `regexp`, the IPv6
pattern, the terminal renderers and `fmt`'s `%v` of the `env.options` value
set (the parameter `render`) are function parameters.

Each source shape has a counterpart here:

| source shape | Dafny form |
|---|---|
| loop that appends to a list or fills a map | `method` with loop invariants, proved against a specification function |
| runner that edits `config.Protocols` in place | method on the `Config.Medik` class that states the new map |
| branch chain | `function` |

Modules follow the Go packages, with one file per exam kind.

## Model

| member | source | states |
|---|---|---|
| Severity.Max | pkg/runner/run.go:42 | Go's `max`: at least both arguments and equal to one of them |
| Reports.Clamp | pkg/exams/env/env.go:119-121 | a clamped status is at most the configured level and at most its own level, equals one of the two, and keeps target and message |
| Reports.MaxLevel | pkg/exams/env/env.go:109-125 | the report level never drops below OK |
| Reports.MaxLevelSpec | pkg/exams/env/env.go:109-125 | the report level bounds every status level, and is OK or the level of some status |
| Reports.MaxLevelAtMost | pkg/exams/env/env.go:119-125 | if every status is at most a non-negative bound, so is the report level |
| Reports.MaxLevelAppend | pkg/exams/env/env.go:123-125 | one more status raises the level to its own level, if that is higher |
| Reports.ShownAppend | pkg/exams/env/env.go:60-64 | filtering by verbosity distributes over concatenation, so it keeps the order |
| Reports.ShownMembers | pkg/exams/env/env.go:60-64 | exactly the statuses at or above the verbosity are shown, and no more than there are |
| Reports.LinesEmptyIff | pkg/exams/env/env.go:60-64 | a rendered body is empty iff it has no status |
| Reports.ShownSingle | pkg/exams/env/env.go:61 | a single status is shown iff its level reaches the verbosity |
| Reports.LinesSnoc | pkg/exams/env/env.go:62 | one more shown status appends its rendered line and a newline |
| Reports.Format | pkg/exams/env/env.go:57-67 | returns the level unchanged and the header of (tag, level); the body has one newline-terminated line per status whose level reaches the verbosity, in order. The same code is pkg/exams/file/file.go:22-32 |
| Reports.BodyEmptyIff | pkg/exams/file/file.go:22-32 | the body is empty iff no status reaches the verbosity |
| Reports.FormatExample | pkg/exams/env/env.go:57-67 | an OK status and a WARNING status give an empty body at verbosity ERROR; both are shown at verbosity OK |
| EnvCore.AnyUnsetStep | pkg/exams/env/env.go:111-115 | one more variable makes "some variable unset" true iff it was already true or the new variable is unset |
| EnvCore.DefaultExaminate | pkg/exams/env/env.go:107-132 | one status per variable, in order: "is not set" at the configured level for an unset variable, otherwise the validator's status clamped to that level. With a non-negative level the report level is the maximum of the statuses and never exceeds the configured level. With a negative level it is the configured level iff some variable is unset, else OK. All variables set and valid gives OK |
| EnvCore.TwoValuedLevel | pkg/exams/env/env.go:107-132 | with a validator that answers OK or the configured level, the report level is OK iff every variable is set and good, else the configured level |
| EnvCore.DefaultParse | pkg/exams/env/env.go:134-146 | a wrong tag gives `WrongExamParserError{Source, Using}`, checked before the variables; empty `vars` gives `VarsUnsetError`; otherwise the result is exactly `f(config)` |
| FileCore.AnyMissingStep | pkg/exams/file/file.go:68-72 | one more path makes "some path missing" true iff it was already true or the new path does not exist |
| FileCore.DefaultExaminate | pkg/exams/file/file.go:64-89 | one status per path, in order: "does not exist" at the configured level for a failed stat, otherwise the validator's status clamped to that level. The report level is the maximum (non-negative level) or the configured level iff some path is missing (negative level) |
| FileCore.TwoValuedLevel | pkg/exams/file/file.go:64-89 | with a two-valued validator the report level is OK iff every path exists and is good, else the configured level |
| FileCore.DefaultParse | pkg/exams/file/file.go:91-103 | a wrong tag is checked first; then empty `paths` (not `vars`) gives `MissingFieldError{"paths"}`; otherwise exactly `f(config)` |
| EnvRegistry.GetParser | pkg/exams/env/env.go:16-22 | a parser is found iff the tag is a key of the table, and it is the table's entry |
| EnvRegistry.KindOfOwnTag | pkg/exams/env/env.go:24-39 | each kind's tag reads back as that kind |
| EnvRegistry.TagsDistinct | pkg/exams/env/env.go:24-39 | no two of the 14 kinds share a tag |
| EnvRegistry.RegisteredUnderOwnTag | pkg/exams/env/env.go:24-39 | every kind is registered under its own tag |
| EnvRegistry.TableIsExact | pkg/exams/env/env_test.go:26-53 | the keys are exactly the 14 tags, and each key leads to the kind that has that tag |
| EnvRegistry.GetParserExamples | pkg/exams/env/env_test.go:12-24 | "inexistent" finds nothing; "env.is-set" finds the is-set parser |
| FileRegistry.GetParser | pkg/exams/file/file.go:52-58 | a parser is found iff the tag is a key of the table, and it is the table's entry |
| FileRegistry.FourKeys | pkg/exams/file/file.go:41-47 | five entries give exactly four keys; the shared key "file.is-empty" holds whichever of the two parsers is inserted last |
| FileRegistry.SameKeysEitherWay | pkg/exams/file/file.go:41-47 | the same tags are found whichever parser keeps the shared key |
| ExamDispatch.Category | pkg/parse/exam.go:16 | the category is the text before the first "." and holds no "."; with no "." it is the whole tag |
| ExamDispatch.CategoryOfDotted | pkg/parse/exam.go:16 | the category of `a.b` is `a` when `a` has no dot |
| ExamDispatch.EnvTagCategory | pkg/parse/exam.go:18-19 | every `env.*` tag is in category "env" |
| ExamDispatch.EnvKeyCategory | pkg/parse/exam.go:18-19 | every key of the env table is in category "env", so the dispatch reaches the env table for it |
| ExamDispatch.FileKeyCategory | pkg/parse/exam.go:20-21 | every key of the file table is in category "file", so the dispatch reaches the file table for it |
| ExamDispatch.GetExamParser | pkg/parse/exam.go:15-25 | a tag that is a key of the env table finds that table's entry as an env parser; a key of the file table finds that table's entry as a file parser; any other tag finds nothing |
| ExamDispatch.FullTagLookedUp | pkg/parse/exam.go:18-19 | "env.is-set" is looked up whole and finds the is-set parser |
| ExamDispatch.SuffixAloneNotFound | pkg/parse/exam.go:22-23 | "is-set", with no category, finds nothing |
| ExamDispatch.UnknownCategoryNotFound | pkg/parse/exam.go:22-23 | an unknown category finds nothing, whatever follows it |
| Runner.Chain | pkg/runner/run.go:51-67 | a successful run has one report per exam |
| Runner.ChainAt | pkg/runner/run.go:60-65 | in a successful run, the k-th report is that of the k-th exam |
| Runner.ChainFailureSticks | pkg/runner/run.go:52-58 | once an exam fails, no later exam changes the outcome |
| Runner.ChainSucceeds | pkg/runner/run.go:51-67 | the run succeeds if every exam is found and parses |
| Runner.ChainStep | pkg/runner/run.go:60-65 | one more successful exam appends its report |
| Runner.ChainFirstError | pkg/runner/run.go:52-58 | the run fails with the error of its first failing exam |
| Runner.EvaluateAt | pkg/runner/run.go:60-65 | one report per exam, in exam order |
| Runner.FirstErrorWins | pkg/runner/run.go:52-58 | an unknown tag or a parse error at exam i, with all earlier exams fine, is the result |
| Runner.LastAboveOkSpec | pkg/runner/run.go:49-63 | the level is OK, or the level of a report above OK after which every report is at most OK; all reports OK gives OK |
| Runner.LastNotLargest | pkg/runner/run.go:61-63 | ERROR followed by WARNING gives WARNING, not the maximum |
| Runner.RunExams | pkg/runner/run.go:47-70 | at the first unknown tag or parse error: (ERROR, no reports, that error); otherwise no error, the reports in exam order, and the level of the last report above OK |
| Runner.FoldSucceedsIff | pkg/runner/run.go:76-82 | the protocols succeed together iff each one does |
| Runner.FoldFirstFailure | pkg/runner/run.go:79-81 | a failure carries the error of the first failing protocol |
| Runner.FoldLevel | pkg/runner/run.go:74-87 | the combined level is at least OK, at least each protocol's level, and OK or one of them |
| Runner.FoldLevelOrderFree | pkg/runner/run.go:76-87 | two successful folds over the same outcomes give the same level |
| Runner.VisitOrderFree | pkg/runner/run.go:72-91 | two visit orders of the same protocols both succeed or both fail, and when they succeed they give the same level |
| Runner.FoldStep | pkg/runner/run.go:77-87 | one more protocol: its error, or the larger level and its reports appended |
| Runner.Outcomes | pkg/runner/run.go:76-77 | one outcome per protocol visited |
| Runner.OutcomesAt | pkg/runner/run.go:76-77 | the k-th outcome is that of the k-th protocol visited |
| Runner.OutcomesStep | pkg/runner/run.go:76-77 | visiting one more protocol appends its outcome |
| Runner.AllEvaluate | pkg/runner/run.go:76-90 | when every protocol has been visited and all succeeded, every protocol evaluates |
| Runner.VisitedStep | pkg/runner/run.go:76 | visiting one more unvisited protocol keeps the visit order duplicate-free and within the map |
| Runner.RunProtocols | pkg/runner/run.go:72-91 | each protocol is visited at most once, in some order; the call fails iff some protocol fails, with (ERROR, no reports). Otherwise every protocol is visited, and the level and reports are those of the fold, starting at OK |
| Runner.Selected | pkg/runner/run.go:28-34 | the kept protocols are exactly the declared ones that were asked for, unchanged |
| Runner.Run | pkg/runner/run.go:21-45 | a failing base run returns (ERROR, no reports, err) and leaves the protocols alone. Otherwise `config.protocols` becomes the selected protocols. A protocol error gives (ERROR, no reports, err). On success the level is the larger of the base and protocol levels, and the reports are the base ones followed by the protocol ones |
| Config.Medik.constructor | pkg/config/config.go:5-8 | the configuration holds the given exams and protocols |
| EnvScan.Unset | pkg/exams/env/is_set.go:36-42 | the unset list is no longer than the variables |
| EnvScan.Invalid | pkg/exams/env/not_empty.go:41-47 | the invalid list is no longer than the variables |
| EnvScan.UnsetMembers | pkg/exams/env/is_set.go:36-42 | the unset list holds exactly the variables that are not set |
| EnvScan.InvalidMembers | pkg/exams/env/not_empty.go:41-47 | the invalid list holds exactly the set variables whose value fails the check |
| EnvScan.Disjoint | pkg/exams/env/int.go:41-47 | no variable is both unset and invalid |
| EnvScan.UnsetAppend | pkg/exams/env/is_set.go:36-42 | the unset list keeps the variables' order |
| EnvScan.InvalidAppend | pkg/exams/env/not_empty.go:41-47 | the invalid list keeps the variables' order |
| EnvScan.Partition | pkg/exams/env/not_empty.go:38-47 | the loop builds exactly the unset list and the invalid list |
| EnvScan.ListsMessage | pkg/exams/env/not_empty.go:49-57 | the message is empty iff both lists are empty |
| EnvScan.NoneListedIff | pkg/exams/env/not_empty.go:59-63 | both lists are empty iff every variable is set to a valid value |
| EnvScan.CheckEach | pkg/exams/env/regex.go:50-67 | passes iff every slot is empty, and then returns no slice; otherwise one slot per variable: unset, the kind's own check, or nothing |
| EnvIsSet.IsSet.Parse | pkg/exams/env/is_set.go:23-33 | a wrong tag gives `WrongExamParserError{Got, Expected}` before the variables are looked at; empty `vars` fails; otherwise the exam holds exactly `vars` |
| EnvIsSet.IsSet.Examinate | pkg/exams/env/is_set.go:35-49 | passes iff every variable is set; otherwise the error lists the unset variables in order |
| EnvNotEmpty.BlankIffAllSpace | pkg/exams/env/not_empty.go:44 | a set variable is invalid iff its value is white space only |
| EnvNotEmpty.BlankExamples | pkg/exams/env_test.go:60-86 | "", " " and "\n" are blank; "x" is not |
| EnvNotEmpty.NotEmpty.Parse | pkg/exams/env/not_empty.go:25-35 | wrong tag, then empty `vars`; otherwise the exam holds `vars` |
| EnvNotEmpty.NotEmpty.Examinate | pkg/exams/env/not_empty.go:37-64 | passes iff every variable is set to a value that is not all white space; otherwise the unset line comes before the blank line |
| EnvRegex.Regex.Parse | pkg/exams/env/regex.go:27-47 | tag, then `vars`, then an empty pattern (`MissingFieldError{"regex"}`), then a compile failure (`FieldValueError` with the compile message); otherwise the exam holds `vars` and the pattern |
| EnvRegex.Regex.Examinate | pkg/exams/env/regex.go:49-68 | passes iff every variable is set and matches; otherwise one slot per variable: unset, not matching, or nothing |
| EnvRegex.ParseCompiles | pkg/exams/env/env_test.go:512-519 | "[" is refused when it does not compile; ".*" with a variable parses |
| EnvOption.Option.Parse | pkg/exams/env/option.go:25-45 | tag, then `vars`, then empty options (`MissingFieldError{"options"}`). The options become a set: a key iff listed, each mapped to true |
| EnvOption.Option.Examinate | pkg/exams/env/option.go:47-66 | passes iff every variable is set to one of the options (exact equality); otherwise one slot per variable |
| EnvInt.IntegerExamples | pkg/exams/env_test.go:225-261 | "1", "-2" and "123" are integers; ".1", "2O", "3f" and "invalid" are not |
| EnvInt.Int.Parse | pkg/exams/env/int.go:25-35 | a wrong tag gives `WrongExamParserError`; then empty `vars` gives the plain error "vars is not set for env.int"; otherwise the exam holds `vars` |
| EnvInt.Int.Examinate | pkg/exams/env/int.go:37-64 | passes iff every variable is set and accepted by `strconv.Atoi`; otherwise the unset line, then the non-integer line |
| EnvIntRange.IntRange.Parse | pkg/exams/env/int_range.go:29-59 | tag, vars, missing min, non-integer min, missing max, non-integer max, in that order; on success the exam holds `vars`, `min` and `max` |
| EnvIntRange.IntRange.Examinate | pkg/exams/env/int_range.go:61-83 | passes iff every variable is set to an integer n with min <= n <= max; otherwise one slot per variable |
| EnvIntRange.IntRange.EmptyRange | pkg/exams/env/int_range.go:72 | with min > max no set value passes |
| EnvIntRange.IntRange.MessagesDiffer | pkg/exams/env/int_range.go:85-87 | the not-an-integer message and the out-of-range message differ |
| EnvIpv4.MatchesIpv4Iff | pkg/exams/env/ipv4.go:39 | a value matches iff it is four runs of one to three ASCII digits joined by "." |
| EnvIpv4.Accepts | pkg/exams/env/ipv4.go:39 | any four digit runs joined by dots match |
| EnvIpv4.NoOctetRangeCheck | pkg/exams/env/ipv4.go:39 | "999.999.999.999" is accepted |
| EnvIpv4.AcceptsPrivate | pkg/exams/env/env_test.go:337-362 | "192.168.1.1" is accepted |
| EnvIpv4.AcceptsTen | pkg/exams/env/env_test.go:337-362 | "10.0.0.1" is accepted |
| EnvIpv4.AcceptsZeros | pkg/exams/env/env_test.go:337-362 | "0.0.0.0" is accepted |
| EnvIpv4.MatchOnlyDotsAndDigits | pkg/exams/env/ipv4.go:39 | a matching value holds only dots and digits |
| EnvIpv4.RejectsWord | pkg/exams/env/env_test.go:337-362 | "invalid" is rejected |
| EnvIpv4.RejectsLetters | pkg/exams/env/env_test.go:337-362 | "127.o.o.1" is rejected |
| EnvIpv4.Ipv4.Parse | pkg/exams/env/ipv4.go:24-34 | a wrong tag gives `WrongExamParserError{Got, Expected}`; then empty `vars` gives the plain error "vars is not set for env.ipv4"; otherwise the exam holds `vars` |
| EnvIpv4.Ipv4.Examinate | pkg/exams/env/ipv4.go:36-65 | passes iff every variable is set and matches; otherwise the unset line, then the non-matching line |
| EnvIp.RejectedMembers | pkg/exams/env/ip.go:39-47 | a variable is invalid iff neither the IPv4 check nor the IPv6 check accepts it |
| EnvIp.Ip.Parse | pkg/exams/env/ip.go:22-32 | a wrong tag gives `WrongExamParserError`; then empty `vars` gives the plain error "vars is not set for env.ip"; otherwise the exam holds `vars` |
| EnvIp.Ip.Examinate | pkg/exams/env/ip.go:35-65 | passes iff every variable is set to an IPv4 or IPv6 address; otherwise only an invalid line |
| EnvIp.UnsetIsInvalid | pkg/exams/env/ip.go:36-47 | an unset variable lands in the invalid list, since nothing is ever added to the unset list |
| EnvFile.File.Parse | pkg/exams/env/file.go:26-30 | `DefaultParse`, then the exam holds `vars`, the level named by `level` and `exists` |
| EnvFile.File.Examinate | pkg/exams/env/file.go:32-51 | an unset variable fails. A set one is valid iff "stat succeeds" equals `exists`, and is otherwise at the configured level with the value, "value should point to an existing file" (or "a non existing file") and the stat error. The level is OK iff all are valid |
| EnvDir.Dir.Parse | pkg/exams/env/dir.go:26-30 | `DefaultParse`, then the exam holds `vars`, the level and `exists` |
| EnvDir.Dir.Examinate | pkg/exams/env/dir.go:32-51 | an unset variable fails; a set one is valid iff "stat succeeds and is a directory" equals `exists`, and is otherwise at the configured level with "value should point to an (or a non) existing directory" and the stat error; the level is OK iff all are valid |
| EnvDir.Dir.RegularFileIsNotDirectory | pkg/exams/env/dir.go:34-40 | with `exists` false a regular file passes; with `exists` true it fails with the stat error `<nil>`, although stat succeeds |
| FilePath.Path.Parse | pkg/exams/file/path.go:28-32 | the tag and non-empty `paths` are required; the exam keeps `exists` |
| FilePath.Path.Examinate | pkg/exams/file/path.go:37-57 | one status per path, valid iff "stat succeeds" equals `exists`, else "path should exist" or "path should not exist"; the level is the configured one iff some path is invalid, else OK |
| FileIsFile.IsFile.Parse | pkg/exams/file/is_file.go:19-30 | tag "file.is-file" and non-empty `paths` |
| FileIsFile.IsFile.Examinate | pkg/exams/file/is_file.go:35-43 | a missing path gets "does not exist"; an existing non-regular path gets "path isn't a regular file"; the level is OK iff every path is a regular file |
| FileIsDir.IsDir.Parse | pkg/exams/file/is_dir.go:19-30 | tag "file.is-dir" and non-empty `paths` |
| FileIsDir.IsDir.Examinate | pkg/exams/file/is_dir.go:35-43 | a missing path gets "does not exist"; an existing non-directory gets "path isn't a directory"; the level is OK iff every path is a directory |
| FileIsEmpty.IsDirEmpty | pkg/exams/file/is_empty.go:58-65 | true iff the listing has no entries; a listing error is passed on |
| FileIsEmpty.IsEmpty.Parse | pkg/exams/file/is_empty.go:19-30 | tag "file.is-empty" and non-empty `paths` |
| FileIsEmpty.IsEmpty.Validate | pkg/exams/file/is_empty.go:36-55 | valid iff an empty listable directory or a non-directory of size 0; otherwise the listing error, "directory is not empty" or "file is not empty" at the configured level |
| FileIsEmpty.IsEmpty.Examinate | pkg/exams/file/is_empty.go:35-56 | one status per path; the level is OK iff every path exists and is empty |
| FileIsEmpty.ParseEmptyConfig | pkg/exams/file/is_empty_test.go:16-21 | an empty configuration is refused, since its tag is wrong |
| FileIsNotEmpty.IsNotEmpty.Parse | pkg/exams/file/is_not_empty.go:19-30 | accepts only "file.is-empty" configurations with non-empty `paths` |
| FileIsNotEmpty.IsNotEmpty.Validate | pkg/exams/file/is_not_empty.go:36-55 | valid iff a listable directory with entries or a non-directory of non-zero size; otherwise the listing error, "directory is empty" or "file is empty" |
| FileIsNotEmpty.IsNotEmpty.Examinate | pkg/exams/file/is_not_empty.go:35-56 | one status per path; the level is OK iff every path exists and is not empty |
| FileIsNotEmpty.ExactlyOneAccepts | pkg/exams/file/is_not_empty.go:36-55 | for an entry whose listing (if a directory) succeeds, exactly one of the two kinds accepts it; with a listing error neither does |
| FileIsNotEmpty.SharedTag | pkg/exams/file/is_not_empty.go:19-21 | `IsNotEmpty.Type()` equals `IsEmpty.Type()` |
| DotEnv.IsLineIgnorable | pkg/parse/env.go:46-48 | ignorable iff empty or starting with "#" |
| DotEnv.IgnorableExamples | pkg/parse/env_test.go:8-28 | "", "#" and "# comment" are ignorable; "key=value" and "key = # comment" are not |
| DotEnv.RunSnoc | pkg/parse/env.go:56-86 | scanning one more character applies one step of the quote state machine |
| DotEnv.Cut | pkg/parse/env.go:60-62 | the cut lies within the line |
| DotEnv.CutStops | pkg/parse/env.go:59-62 | the scan stops at a "#" met outside quotes and at no earlier one |
| DotEnv.CommentCut | pkg/parse/env.go:55-62 | the cut lies within the line |
| DotEnv.CommentCutSpec | pkg/parse/env.go:55-86 | the cut is a comment start or the end, and nothing before it starts a comment |
| DotEnv.CommentCutUnique | pkg/parse/env.go:55-86 | the first comment start, or the end if there is none, is the cut |
| DotEnv.TrimComment | pkg/parse/env.go:50-89 | returns the trimmed text before the first "#" met outside single or double quotes |
| DotEnv.EscapeInert | pkg/parse/env.go:68-83 | inside quotes a backslash makes the next character inert, so an escaped quote does not close |
| DotEnv.NoHashOnlyTrims | pkg/parse/env.go:88 | a line without "#" is only trimmed |
| DotEnv.QuoteOpens | pkg/parse/env.go:63-67 | an opening quote leaves the free state, so a quoted "#" is kept |
| DotEnv.Cleaned | pkg/parse/env.go:26-44 | never more lines out than in |
| DotEnv.CleanLineShape | pkg/parse/env.go:30-40 | a kept line is non-empty, trimmed and does not start with "#" |
| DotEnv.CleanedShape | pkg/parse/env.go:26-44 | every cleaned line is non-empty, trimmed and does not start with "#" |
| DotEnv.CleanedAppend | pkg/parse/env.go:29-41 | cleaning works line by line and keeps the input order |
| DotEnv.CleanLines | pkg/parse/env.go:26-44 | the loop returns exactly the cleaned lines |
| DotEnv.Unquote | pkg/parse/env.go:100-106 | at most one character comes off each end |
| DotEnv.UnquoteWrapped | pkg/parse/env.go:100-106 | a value between two quotes, of either kind, comes out whole, including inner quotes and spaces |
| DotEnv.UnquotePlain | pkg/parse/env.go:100-106 | a value with no quote at either end is kept |
| DotEnv.UnquoteLoneQuote | pkg/parse/env.go:100-106 | a lone quote is removed once, as the leading one |
| DotEnv.SplitKeyValue | pkg/parse/env.go:93-110 | a failure is "invalid line: " and the line |
| DotEnv.SplitFailsIff | pkg/parse/env.go:91-110 | splitting fails iff there is no "=" or only spaces before the first one |
| DotEnv.SplitKeyShape | pkg/parse/env.go:97-112 | a key is non-empty, holds no "=" and has no outer spaces |
| DotEnv.BuildFailure | pkg/parse/env.go:14-18 | building fails iff some line does not split, and then with the first such line's error |
| DotEnv.BuildKeys | pkg/parse/env.go:14-20 | a built map holds exactly the keys of its lines |
| DotEnv.BuildLastWins | pkg/parse/env.go:20 | a key's value comes from the last line with that key |
| DotEnv.BuildStep | pkg/parse/env.go:14-21 | one more line inserts its pair or fails |
| DotEnv.BuildFailureSticks | pkg/parse/env.go:16-18 | after a bad line nothing more is read |
| DotEnv.ParseLinesFailure | pkg/parse/env.go:14-18 | parsing fails iff some line does not split, with "invalid line" and the first such line |
| DotEnv.ParseEnvFile | pkg/parse/env.go:8-24 | splits at newlines, cleans, and inserts each line's pair, stopping at the first bad line |
| DotEnvLines.SplitAtFirstEquals | pkg/parse/env.go:92-112 | the line is split at its first "="; the key and value are trimmed and the value unquoted; an all-space key fails |
| DotEnvLines.TrimClean | pkg/parse/env.go:97 | a string with no outer spaces trims to itself |
| DotEnvLines.TrimPadded | pkg/parse/env.go:97 | a key followed by spaces trims to the key |
| DotEnvLines.TrimQuoted | pkg/parse/env.go:98 | a quoted value padded with spaces trims to the quoted value |
| DotEnvLines.UnquoteDouble | pkg/parse/env.go:100-106 | unquoting a double-quoted value gives the value |
| DotEnvLines.SplitQuoted | pkg/parse/env.go:91-112 | `key="value"` reads back as that key and value, whatever the value holds |
| DotEnvLines.SplitQuotedSpaced | pkg/parse/env.go:91-112 | spaces around "=" and outside the quotes go; spaces inside stay |
| DotEnvLines.SplitPlain | pkg/parse/env.go:91-112 | `key=value` with a plain value reads back as that key and value |
| DotEnvLines.SplitExamples | pkg/parse/env_test.go:83 | "key=value" gives ("key", "value"); `key = "value " ` gives ("key", "value ") |
| DotEnvLines.SplitBlank | pkg/parse/env.go:98-112 | `key = ` has an empty value |
| DotEnvLines.SplitEmptyValue | pkg/parse/env.go:98-112 | "key = " gives ("key", "") |
| DotEnvLines.SplitNoEquals | pkg/parse/env_test.go:85-86 | "key" fails with "invalid line: key" |
| DotEnvLines.SplitNoKey | pkg/parse/env_test.go:85-86 | "=value" fails with "invalid line: =value" |
| GoStrings.TrimSpaceEnds | pkg/parse/env.go:30 | a trimmed string neither starts nor ends with white space |
| GoStrings.TrimSpaceEmptyIff | pkg/exams/env/not_empty.go:44 | a string trims to nothing iff it is all white space |
| GoStrings.TrimSpaceIdempotent | pkg/parse/env.go:30 | trimming twice is trimming once |
| GoStrings.IndexOf | pkg/parse/exam.go:16 | the index of the first occurrence, or none when absent |
| GoStrings.Split | pkg/parse/env.go:9 | at least one piece, none holding the separator |
| GoStrings.JoinSplit | pkg/parse/env.go:9 | joining the pieces with the separator gives the text back |
| GoStrings.SplitJoin | pkg/parse/env.go:9 | splitting a join of separator-free pieces gives the pieces back |
| Strconv.AtoiSpec | pkg/exams/env/int.go:44 | Atoi succeeds iff the text is an optional sign and one or more digits whose value fits in int64, and then returns that value |
| Strconv.AtoiItoa | pkg/exams/env/int_range.go:72 | Atoi reads back every int64 that `%v` writes |
| Strconv.AtoiAccepts | pkg/exams/env_test.go:225-261 | "1", "-2" and "123" convert to 1, -2 and 123 |
| Strconv.AtoiRejects | pkg/exams/env_test.go:225-261 | ".1", "2O", "3f" and "invalid" are syntax errors |
| Strconv.DecodeEscape | pkg/exams/env/int_range.go:85-87 | each character's escape in the quoted value of Atoi's error reads back as that character, whatever follows it |
| Strconv.UnquoteQuote | pkg/exams/env/int_range.go:85-87 | unquoting the quoted value in Atoi's error text gives the value back: quotes, backslashes and control characters are escaped |
| Strconv.QuoteExamples | pkg/exams/env/int_range.go:85-87 | `a"b` is quoted as `"a\"b"`, and a newline is written `\n` |
| Strconv.AtoiErrorQuotes | pkg/exams/env/int_range.go:85-87 | the Atoi error for `a"b` reads `strconv.Atoi: parsing "a\"b": invalid syntax` |
| LegacyExams.Scan | pkg/exams/env.go:83-105 | passes iff every variable is set and valid; otherwise the unset line, then the invalid line |
| LegacyExams.EnvIsSet.Parse | pkg/exams/env.go:26-36 | "invalid type T for env.is-set" before "vars is not set for env.is-set"; otherwise the exam holds `vars` |
| LegacyExams.EnvIsSet.Examinate | pkg/exams/env.go:38-52 | passes iff every variable is set; otherwise one line listing the unset variables, with no line break |
| LegacyExams.EnvIsSetNotEmpty.Parse | pkg/exams/env.go:67-77 | wrong type, then empty `vars`, each with its text |
| LegacyExams.EnvIsSetNotEmpty.Examinate | pkg/exams/env.go:79-106 | passes iff every variable is set to a non-blank value; otherwise the unset line, then "environment variables set to empty strings" |
| LegacyExams.EnvIsSetNotEmpty.ListedOnce | pkg/exams/env.go:83-89 | a variable is listed at most once; it is listed as blank iff it is set to white space only |
| LegacyExams.EnvRegex.Parse | pkg/exams/env.go:123-143 | type, vars, "regex is not set for env.regex", then "invalid regex P for env.regex, E"; otherwise the exam holds `vars` and the pattern |
| LegacyExams.EnvRegex.Examinate | pkg/exams/env.go:145-172 | passes iff every variable is set and matches; otherwise the unset line, then "environment variables not matching regex" |
| LegacyExams.EnvOption.Parse | pkg/exams/env.go:188-208 | type, vars, "options is not set for env.options"; then the options are inserted one by one: a key iff listed, each mapped to true |
| LegacyExams.EnvOption.Examinate | pkg/exams/env.go:210-237 | passes iff every variable is set to an option; otherwise the unset line, then "environment variables not matching options" |
| LegacyExams.EnvInteger.Parse | pkg/exams/env.go:252-262 | wrong type, then empty `vars` |
| LegacyExams.EnvInteger.Examinate | pkg/exams/env.go:264-291 | passes iff every variable is set and accepted by Atoi; otherwise the unset line, then the non-integer line |
| LegacyExams.EnvIntegerRange.Examinate | pkg/exams/env.go:306-324 | unset gives (false, nil); passes iff Atoi accepts and min <= n <= max; a non-number and an out-of-range number each give their own error |
| LegacyExams.EnvIntegerRange.MessagesDiffer | pkg/exams/env.go:316-320 | the not-a-number error and the out-of-range error differ |
| LegacyExams.EnvIntegerRange.EmptyRange | pkg/exams/env.go:319 | with min > max nothing passes |
| LegacyExams.IntegerRangeExamples | pkg/exams/env_test.go:277-324 | "2" passes [1,4]; "4" and "-1" fail [1,3]; "a" fails [1,0] |
| LegacyExams.EnvFile.Examinate | pkg/exams/env.go:392-406 | unset gives (false, nil); passes iff the value is an existing path; otherwise "which is not a file, " and the stat error |
| LegacyExams.FileAcceptsDirectory | pkg/exams/env.go:399-405 | only stat is asked, so a directory passes `EnvFile` |
| LegacyExams.EnvDir.Examinate | pkg/exams/env.go:416-434 | unset gives (false, nil); passes iff the value is an existing directory; a missing path gives the stat error, an existing non-directory a shorter message |
| LegacyExams.EnvDir.MessagesDiffer | pkg/exams/env_test.go:500-518 | a missing path and a path that is not a directory give different errors |
| LegacyExams.EnvIpv4Addr.Examinate | pkg/exams/env.go:444-458 | unset gives (false, nil); passes iff four digit runs joined by dots; otherwise "which is not an IPv4 address" |
| LegacyExams.EnvIpv6Addr.Examinate | pkg/exams/env.go:468-482 | unset gives (false, nil); passes iff the IPv6 pattern matches; otherwise "which is not an IPv6 address" |
| LegacyExams.EnvIpAddr.Examinate | pkg/exams/env.go:492-506 | passes iff the IPv4 exam or the IPv6 exam passes; otherwise an error naming `os.Getenv` of the variable |
| LegacyExams.EnvIpAddr.UnsetIsError | pkg/exams/env.go:492-506 | an unset variable is an error naming the empty value, while both exams it tries give (false, nil) |
| LegacyExams.IpExamples | pkg/exams/env_test.go:526-581 | "0.0.0.0" passes; "127.o.o.1" fails when the IPv6 pattern rejects it |
| RulesEnv.CheckEnvRule.Validate | pkg/rules/env.go:24-32 | (true, nil) iff the variable is set, else `CheckEnvError{var}` |
| RulesEnv.ValidateEnvRegexRule.Validate | pkg/rules/env.go:51-69 | unset gives (false, nil) whatever the pattern; for a set variable a compile failure returns the compile error, a mismatch `ValidateEnvRegexError{var, value, regex}`; passes iff set, compiling and matching |
| RulesEnv.ValidateEnvOneOfRule.Validate | pkg/rules/env.go:88-102 | unset gives (false, nil); (true, nil) iff the value equals some option; otherwise an error carrying the rule and the value |
| RulesEnv.ValidateEnvIntegerRule.Validate | pkg/rules/env.go:119-133 | unset gives (false, nil); an Atoi failure gives `ValidateEnvIntegerError{var, value}`; otherwise (true, nil) |

## Left out

- Reading the configuration and `.env` files, `os.Setenv`, printing and exit codes (pkg/cmd/root.go). These are I/O.
- YAML decoding (pkg/config/config.go). It is a foreign library. `Config.Exam` is the decoded record, and an omitted `exists` is false.
- Colored terminal output (pkg/format/format.go). `ReportHeader` and `ReportStatus` are parameters of `Reports.Format`.
- The floating-point kinds: `env.float`, `env.float-range`, and the first-generation `EnvFloat` and `EnvFloatRange`. They use `ParseFloat` and float comparison. Their tags are still registered in the table.
- The IPv6 pattern. It is one large regular expression, so it is the predicate `isIpv6`.
- `env.hostname` and the first-generation `EnvHostname`. They parse URLs with `net/url`. The tag is still registered.
- `pkg/check/env.go`. It is a thin wrapper over `os.LookupEnv` and `regexp`.
- `regexp`. It is the parameters `compileError` and `matches`.
- `medik.LogLevelFromStr`. It is the parameter `levelOf`. Its source is not part of this model.
- Stat failure texts. Every failing `os.Stat` is modelled as "stat P: no such file or directory", so other error numbers are not told apart.
- `os.ReadDir` and file sizes. These are fields of the filesystem snapshot, not reads.
- Map iteration order in `runProtocols`. The order is chosen nondeterministically and returned as a ghost value. `Runner.VisitOrderFree` shows that success and the level do not depend on it. The order of the reports does.
- Which parser keeps the shared `file.is-empty` key. Go's map literal does not fix it, so it is the parameter `notEmptyWins`.
- The test expectations that contradict the code:
  - pkg/exams/env/dir_test.go expects ERROR for a `Dir` built with a zero level, but the clamp gives OK.
  - Some tests set a `Level` field on types that have none.
  The model follows the code.
- `Runner.Chain`: its contract gives only the length. The per-position reports are `Runner.ChainAt` and `Runner.EvaluateAt`.
- `DotEnv.SplitKeyValue`: its contract gives only the error text. The successful results are the `DotEnvLines` lemmas and `DotEnv.SplitKeyShape`.
- EnvIp.Ip.Examinate: pkg/exams/env/ip.go:43-44 reads `ok, _ := ipv6.Examinate()`, but `Ipv6.Examinate` (pkg/exams/env/ipv6.go:30) returns a single `exams.Report`, so the line does not compile as written. The model reads the IPv6 half as "the variable is set and the IPv6 pattern matches", like the IPv4 half. It does not model a reading through the report level, under which an `Ipv6` built with the zero level would accept every value.
- Runner.RunExams: pkg/runner/run.go:60-61 calls `Level()` on the result of `exam.Examinate()`, but `exams.Exam` (pkg/exams/exam.go:9) declares `Examinate() (bool, error)`, and kinds such as `Int` (pkg/exams/env/int.go:37) and `IsSet` (pkg/exams/env/is_set.go:35) return exactly that. The model takes parsing and examination as the parameters `parse` and `examinate: X -> Report`, so `Runner.RunExams`, `Runner.RunProtocols` and `Runner.Run` hold for any kinds that produce a report. No concrete kind is plugged into the runner.
- Strconv.Quote: non-ASCII characters are written as they are. Go escapes the non-printable ones, such as U+00A0, as `\u` or `\U`, and invalid UTF-8 bytes as `\x`. ASCII is escaped exactly as Go does.
- `Strconv.Atoi` has no contract of its own. `Strconv.AtoiSpec` states when it succeeds and which value it returns. `Strconv.AtoiItoa`, `Strconv.AtoiAccepts` and `Strconv.AtoiRejects` are round-trip and example lemmas.
- `Run` and `runProtocols` combine levels with `max`, but `runExams` keeps the level of the last report above OK (`Runner.LastNotLargest`). The model follows the code.
- The text `fmt`'s `%v` writes for the `env.options` value set (a Go map). It is the parameter `render`, so the model does not fix the order or format of that text.
- The rule error `RegexCompileError` carries `regexp`'s message as an opaque text.
