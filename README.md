# The git status probe of a shell prompt, in Dafny

This project models the part of the `starship` prompt that works out the state of a
git working tree and turns it into prompt segments. It covers:

- `src/git.rs`:
  - finding the repository that contains a directory (`Repository::discover`, `scan`);
  - reading the branch name from `.git/HEAD` (`get_branch`, `branch`);
  - the two `OnceCell` caches of a `Repository`;
  - the parser of `git status --porcelain` output (`parse_porcelain_output`, `increment_git_status`).
- `src/modules/git_status.rs`: the `git_status` module, meaning the meta, style and
  variable mappers it hands the template engine, `format_count`, `format_text`, and the rule
  that an empty or failed rendering shows nothing.

Files:

- `wrappers.dfy`: `Option` and `Result`.
- `strings.dfy`: splitting at a separator, and joining back.
- `porcelain.dfy` (module `GitStatusParser`): the `GitStatus` record and the parser.
- `repository.dfy` (module `GitRepository`): paths, discovery, the branch name, and the
  `Repository` class with its two cells.
- `git_status_module.dfy` (module `GitStatusModule`): the prompt module.

The parser is modelled as the code is written, not as its doc comment or its unit test
describe it:

- The equal-pair test comes first. So `??`, `MM`, `UU`, an empty line and a lone `" "` each
  count as one conflict.
- Otherwise only the second letter is classified.
- The call `increment_git_status(.., 'S')` changes nothing.
- `staged` is never set.
- The unit test at src/git.rs:150-167 expects modified = 2, added = 1, untracked = 1. The code
  gives conflicted = 1 and nothing else; `UnitTestInputActual` states this.
- As written, `??` counts as a conflict, while git-status(1) calls it untracked.
- As written, empty lines are counted (as conflicts), not skipped.
- As written, `git status` runs in the process's working directory, not in `git_dir`.
- There is no commit-hash accessor.
- In the prompt module, the variable `behind` renders `config.behind` with `status.ahead`
  (src/modules/git_status.rs:44). `BehindReadsAhead` states this.
- Nothing in this code fills `stashed`, `ahead`, `behind`, `diverged` or `staged`. So
  `UnparsedCountersNeverShow` proves that the `stashed`, `ahead`, `behind` and `staged`
  variables never show anything.

Line splitting follows `str::lines` as the Rust releases of the code's time define it:

- split at `'\n'`;
- drop the empty piece after a final `'\n'`;
- strip one trailing `'\r'` from every line.

Later Rust releases keep a `'\r'` that ends the text without a following `'\n'`.

Inputs that come from outside are parameters:

- what `git status --porcelain` printed (`None` when it could not be run);
- a file-reading function for the HEAD file (`None` when the file cannot be read);
- an `exists` test on paths.

The template engine is a parameter too: a pair of functions, `parse` (`StringFormatter::new`)
and `render` (the final `.parse(None)`).

## Model

| member | source | states |
|---|---|---|
| `GitStatusParser.Lines` | src/git.rs:97 | no line contains '\n'; the empty text has no lines |
| `GitStatusParser.LinesAfter` | src/git.rs:97 | a '\n'-free piece followed by '\n' is the first line (with one trailing '\r' removed), and the rest of the text gives the rest of the lines |
| `GitStatusParser.LinesOfTerminated` | src/git.rs:97 | splitting lines that each end in '\n' gives them back (round trip), for lines free of '\n' that do not end in '\r' |
| `GitStatusParser.LetterCodes` | src/git.rs:104-107 | the pair is the first two characters, each missing character read as ' ' |
| `GitStatusParser.DefaultIsZero` | src/git.rs:7-21 | the twelve-counter record's default has every counter at zero |
| `GitStatusParser.IncrementGitStatus` | src/git.rs:123-134 | a letter of the short-format table raises its own counter by one; any other letter leaves the record unchanged |
| `GitStatusParser.IncrementEffect` | src/git.rs:123-134 | a letter raises exactly its counter from the short-format table by one (A/C added, M/U modified, D deleted, R renamed, ? untracked); any other letter, 'S' included, changes nothing |
| `GitStatusParser.CountLine` | src/git.rs:100-116 | a line with a category raises that counter by one; a line without one leaves the record unchanged |
| `GitStatusParser.CountLineEffect` | src/git.rs:104-115 | one line raises exactly the counter its category names, by one, and no other counter |
| `GitStatusParser.EqualPairIsConflict` | src/git.rs:110-111 | equal letter codes add one conflict and nothing else |
| `GitStatusParser.ConflictExamples` | src/git.rs:104-115 | "??", "MM", "UU", "", " " are conflicts; " M" is modified; "M " counts nothing |
| `GitStatusParser.SecondLetterDecides` | src/git.rs:112-115 | with unequal codes only the second letter decides, through the table |
| `GitStatusParser.ParseLines` | src/git.rs:98-118 | the fold of the per-line rule over the lines never raises stashed, unmerged, ahead, behind, diverged or staged |
| `GitStatusParser.Parse` | src/git.rs:95-119 | the counters of the parsed output sum to its number of lines minus the lines no rule matches |
| `GitStatusParser.ParsePorcelainOutput` | src/git.rs:95-119 | the loop's result is the fold of the per-line rule over all lines of the output |
| `GitStatusParser.ParseLinesCounts` | src/git.rs:98-118 | every counter equals the number of lines whose category is that counter |
| `GitStatusParser.ParseEmpty` | src/git.rs:141-148 | empty output gives the all-zero record |
| `GitStatusParser.ParseLinesTotal` | src/git.rs:100-116 | the counters sum to the number of lines minus the lines no rule matches |
| `GitStatusParser.ParseLinesAppend` | src/git.rs:100-116 | parsing xs then ys is the field-wise sum of parsing each |
| `GitStatusParser.ParseLinesPermutation` | src/git.rs:100-116 | permuting the lines does not change the result |
| `GitStatusParser.ParseLinesFitsU8` | src/git.rs:8-21 | with fewer than 256 lines every counter stays below 256, so the u8 fields cannot overflow |
| `GitStatusParser.UnitTestInputActual` | src/git.rs:150-167 | the unit test's input yields conflicted = 1 and zero elsewhere, not what the test expects |
| `GitStatusParser.PrintedListingActual` | src/git.rs:95-119 | "M a\nMM b\nA c\n?? d\n" yields conflicted = 2 and zero elsewhere |
| `GitRepository.Parent` | src/git.rs:38-41 | a path has a parent exactly when it has a component; the parent is one component shorter |
| `GitRepository.ParentOfJoin` | src/git.rs:45 | joining a name makes it the last component, and the parent of the joined path is the path again |
| `GitRepository.Scan` | src/git.rs:44-57 | a repository is found at `path` exactly when `path/.git` exists, with root `path` and git dir `path/.git` |
| `GitRepository.Discover` | src/git.rs:32-42 | the result is an ancestor-or-self whose `.git` exists, with git dir root/.git, and no nearer ancestor has one; none exactly when no ancestor-or-self has one; terminates because parents shorten |
| `GitRepository.DiscoverFindsFirst` | src/git.rs:32-57 | if the first ancestor holding `.git` is k levels up, that ancestor is found, for every k |
| `GitRepository.LastIndexOf` | src/git.rs:81 | the index of the last occurrence (none exactly when absent) |
| `GitRepository.IsWhitespace` | src/git.rs:83 | the space, tab and line-ending characters git writes after a ref name are whitespace; digits, letters, '/', '-', '_' and '.' are not |
| `GitRepository.TrimEnd` | src/git.rs:83 | a prefix that does not end in whitespace, and everything cut off is whitespace |
| `GitRepository.HeadFile` | src/git.rs:79 | the file named `HEAD` directly inside the git directory |
| `GitRepository.GetBranch` | src/git.rs:78-85 | a name exactly when the file was read and contains '/'; the name has no '/' and does not end in whitespace |
| `GitRepository.GetBranchAfterLastSlash` | src/git.rs:81-84 | for contents p + "/" + a with no '/' in a, the name is trim_end(a) |
| `GitRepository.BranchOrHead` | src/git.rs:71-76 | "HEAD" when the file is unreadable or has no '/'; otherwise the derived name |
| `GitRepository.BranchOfRefHeadsMain` | src/git.rs:71-85 | "ref: refs/heads/main\n" gives "main" |
| `GitRepository.StatusOf` | src/git.rs:63-69 | a failed command gives the all-zero record; otherwise the parse of its output; the counters the parser never sets are 0 either way |
| `GitRepository.GetStatus` | src/git.rs:63-69 | runs the parser on the output, or gives zero when there is none |
| `GitRepository.Repository.constructor` | src/git.rs:51-56 | a new handle has the given dirs and both cells empty |
| `GitRepository.Repository.Status` | src/git.rs:59-61 | the first call computes and stores the status; later calls return the stored value, leave the state alone and do not compute again |
| `GitRepository.Repository.Branch` | src/git.rs:71-76 | the first call reads HEAD and stores the name (or "HEAD"); later calls return the stored value and do not read HEAD again |
| `GitRepository.DiscoverRepository` | src/git.rs:32-57 | a fresh handle exactly when discovery finds a repository, with its dirs and empty cells |
| `GitRepository.AskTwice` | src/git.rs:59-76 | asking twice gives equal answers from the first computation, and each value is computed once |
| `GitStatusModule.DecimalString` | src/modules/git_status.rs:104 | digits only, no leading zero, and "0" only for 0 |
| `GitStatusModule.DecimalRoundTrip` | src/modules/git_status.rs:104 | reading the digits back gives the count |
| `GitStatusModule.TextMappers` | src/modules/git_status.rs:89 | no meta-variables and no styles; a variable is known exactly when the mapper gives text for it, and then stands for that text |
| `GitStatusModule.FormatText` | src/modules/git_status.rs:83-96 | none when the format string fails to parse; otherwise the rendering with text variables, none when rendering fails |
| `GitStatusModule.CountMapper` | src/modules/git_status.rs:103-106 | `count` is the only variable; its text is decimal digits that read back as the count |
| `GitStatusModule.FormatCount` | src/modules/git_status.rs:98-107 | none whenever the count is 0, whatever the format string |
| `GitStatusModule.FormatCountBindings` | src/modules/git_status.rs:103-106 | for a positive count only `count` is bound, to the count's decimal digits; no meta-variables or styles |
| `GitStatusModule.MapMeta` | src/modules/git_status.rs:32-35 | `all_status` is the only meta-variable |
| `GitStatusModule.MapStyle` | src/modules/git_status.rs:36-39 | `style` is the only style key, and it names the configured style |
| `GitStatusModule.MapVariable` | src/modules/git_status.rs:40-61 | only the nine known names can give segments |
| `GitStatusModule.ModuleMappers` | src/modules/git_status.rs:30-62 | the engine gets the meta mapper, the style mapper and the variable mapper; a variable is known exactly when the variable mapper gives segments for it, and then stands for those segments |
| `GitStatusModule.VariableDispatch` | src/modules/git_status.rs:40-61 | each name pairs its own format string with its own counter, except `behind`, which pairs with `ahead`; `diverged` gives none |
| `GitStatusModule.BehindReadsAhead` | src/modules/git_status.rs:44 | `behind` ignores the behind counter and is empty when ahead is 0 |
| `GitStatusModule.CleanStatusShowsNothing` | src/modules/git_status.rs:40-61 | with all counts zero no variable gives segments |
| `GitStatusModule.UnparsedCountersNeverShow` | src/modules/git_status.rs:42-55 | for any status from the parser, `stashed`, `ahead`, `behind` and `staged` give none |
| `GitStatusModule.AllStatusFormatIsRefs` | src/modules/git_status.rs:7 | the constant references the seven names one after another |
| `GitStatusModule.AllStatusExpansion` | src/modules/git_status.rs:32-35 | `all_status` expands to conflicted, stashed, deleted, renamed, modified, staged, untracked, in that order, each a known variable |
| `GitStatusModule.Module` | src/modules/git_status.rs:24-80 | none without a repository; a shown list is never empty |
| `GitStatusModule.ModuleResult` | src/modules/git_status.rs:66-80 | with a repository: exactly the rendered segments when parse and render succeed and give a non-empty list, none otherwise |
| `Wrappers.Result.ToOption` | src/modules/git_status.rs:91 | `.ok()`: some exactly for a success, with its value |

## Left out

- Running `git` (`utils::exec_cmd`), reading files (`fs::read_to_string`) and `Path::exists` are not modelled. Their results are parameters.
- Thread safety of `OnceCell` is not modelled, since the model is single-threaded. The caches are plain fields that are filled once.
- The template engine is not modelled. `StringFormatter`, the parsing and rendering of format strings, `Segment`, and ANSI styles live in src/formatter and src/segment, which are not part of this model. The engine is a parameter, and a style is a name.
- `Context`, the `Module` value (`new_module`, `set_segments`), `GitStatusConfig::try_load` and logging are plumbing. The module's result is returned as a value.
- The `#[cfg(test)]` block of src/modules/git_status.rs is not modelled. It spawns real `git` processes in temporary directories.
- src/lib.rs is not modelled. It only declares modules.
- The `ahead`, `behind`, `diverged` and `stashed` counters have no meaning here. Nothing in this code computes them; the model only proves the parser leaves them 0.
- Paths are lists of components plus an absolute flag. `.`, `..`, repeated or trailing separators and Windows prefixes are not normalised.
- Text is a sequence of Unicode scalar values. The source's byte offsets become character offsets; since '/' is one byte, this changes nothing.
- `format_count` takes a `usize` count (src/modules/git_status.rs:98), but its callers pass the `u8` fields of `GitStatus` (src/git.rs:9-20, src/modules/git_status.rs:42-58). As shown, the source would not type-check there. The model uses `nat` for both.
- `ParsePorcelainOutput`: the counters are unbounded. Past 255 lines in one category, the source's `u8` `+= 1` panics (debug build) or wraps (release build). `ParseLinesFitsU8` shows that below 256 lines this cannot happen.
