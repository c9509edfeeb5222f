# simplegrep, modelled in Dafny

simplegrep is a minimal grep: `simplegrep <query> <file_path>` prints every
line of the file that contains the query. When the environment variable
`IGNORE_CASE` is set, the match ignores letter case. Its library
(`src/lib.rs`) has two parts, and both are modelled here as pure functions:

- **Configuration resolution** (`Config::build`). The first argument (the
  program name) is skipped. The next two are the query and the file path.
  Each missing one is a distinct error. `ignore_case` comes from the lookup
  of `IGNORE_CASE`, which is passed in as a parameter.
- **Search** (`search_case_sensitive`, `search_case_insensitive`). The
  contents are split into lines the way Rust's `str::lines` does it. The
  lines that contain the query, exactly or after lower-casing both sides,
  are kept in their original order.

Files:

- `wrappers.dfy`: `Option` and `Result`.
- `text.dfy`: `Lines` (Rust's `str::lines`: cut after each '\n', drop the
  '\n' and one '\r' before it, no empty line after a final terminator),
  `Contains` (substring test), `Lower`/`LowerStr` (ASCII lower-casing).
- `filtering.dfy`: `Filter`, the meaning of `iter.filter(p).collect()`,
  with its exact specification `Selects` (ascending positions, the element
  at each position, a position used exactly when `p` holds there).
- `simplegrep.dfy`: `Config`, `Build`, the two searches, the dispatch on
  `ignore_case` that `run` performs, and the library's test scenarios.

Points of the code's behaviour worth noting:

- The query may be empty. `Build` accepts `""` as a query, and an empty
  query then matches every line.
- `ignore_case` is `env::var("IGNORE_CASE").is_ok()`. It is true for any
  Unicode value, including `""`. It is false when the variable is absent,
  and also when it is present with a value that is not valid Unicode
  (`EnvLookup.NotUnicode`). So presence alone does not decide it.
- Lines follow the behaviour of `str::lines` in current Rust standard
  libraries: only "\n" and "\r\n" end a line, so a '\r' at the end of a
  final line with no '\n' after it stays part of that line. Older
  standard libraries also stripped that bare '\r'. The repository pins no
  toolchain, and the model follows the current behaviour.

## Model

| member | source | states |
|---|---|---|
| `SimpleGrep.Message` | src/lib.rs:18-23 | QueryMissing carries "Query is missing." and FilePathMissing carries "File path is missing.", and no other error carries either text |
| `SimpleGrep.Next` | src/lib.rs:14-21 | an exhausted argument list yields nothing and stays exhausted; otherwise the argument taken followed by the rest is exactly the list before the step |
| `SimpleGrep.Build` | src/lib.rs:12-33 | no argument after the program name (a list of at most one element, the empty list included) gives QueryMissing with "Query is missing."; exactly one gives FilePathMissing with "File path is missing."; otherwise the result is Ok with query = args[1], file path = args[2], and ignoreCase exactly when the lookup of IGNORE_CASE succeeded |
| `SimpleGrep.BuildIgnoresExtraArgs` | src/lib.rs:21-24 | arguments after the file path never change the result |
| `SimpleGrep.BuildIgnoreCaseEmptyValue` | src/lib.rs:26 | IGNORE_CASE set to "" turns case-insensitive matching on; an absent variable leaves it off |
| `SimpleGrep.SearchCaseSensitive` | src/lib.rs:52-57 | no more results than lines, and every result line contains the query |
| `SimpleGrep.SearchCaseInsensitive` | src/lib.rs:59-64 | no more results than lines, and every result line contains the query once both are lower-cased |
| `SimpleGrep.SearchCaseSensitiveExact` | src/lib.rs:53-56 | the result is exactly the lines of the contents that contain the query, each once, in text order, and it is a subsequence of the lines |
| `SimpleGrep.SearchCaseInsensitiveExact` | src/lib.rs:60-63 | the result is exactly the lines whose lower-cased text contains the lower-cased query; they are returned as written, in text order |
| `SimpleGrep.InsensitiveIncludesSensitive` | src/lib.rs:55-62 | the case-sensitive result is a subsequence of the case-insensitive one |
| `SimpleGrep.EmptyQueryKeepsAllLines` | src/lib.rs:55-62 | an empty query returns every line unchanged and in order, in both modes |
| `SimpleGrep.EmptyContentsNoResults` | src/lib.rs:53-61 | empty contents gives an empty result in both modes |
| `SimpleGrep.InsensitiveIgnoresQueryCase` | src/lib.rs:62 | lower-casing the query beforehand does not change the case-insensitive result |
| `SimpleGrep.Results` | src/lib.rs:39-43 | the result is exactly the selection of the lines by the case-insensitive test when ignore_case is set and by the case-sensitive test otherwise; it is a subsequence of the lines, each line containing the query up to letter case, and exactly in case-sensitive mode |
| `SimpleGrep.PoemLines` | src/lib.rs:73-77 | the test poem splits into its four lines |
| `SimpleGrep.ScenarioCaseSensitive` | src/lib.rs:70-82 | query "bold", case-sensitive, on the poem gives only its first line |
| `SimpleGrep.ScenarioCaseInsensitive` | src/lib.rs:84-96 | query "BoLd", case-insensitive, on the poem gives only its first line, as written |
| `SimpleGrep.ScenarioCaseSensitiveMixedCase` | src/lib.rs:52-56 | query "BoLd", case-sensitive, on the poem gives no line |
| `Text.LineEnd` | src/lib.rs:54 | the first line segment ends just after the first '\n', or at the end of the text when there is none |
| `Text.Lines` | src/lib.rs:54 | no line contains '\n', and there are no more lines than characters |
| `Text.LinesBreak` | src/lib.rs:54 | a '\n' ends the line before it, dropping one '\r' before it, and the rest is split the same way |
| `Text.LinesLast` | src/lib.rs:54 | non-empty text without '\n' is a single line, kept whole |
| `Text.LinesUnlines` | src/lib.rs:54 | splitting lines joined with '\n' terminators gives the lines back |
| `Text.UnlinesLines` | src/lib.rs:54 | '\n'-terminated text with no '\r' directly before a '\n' is recovered by joining its lines |
| `Text.LinesFinalNewline` | src/lib.rs:54 | a final "\n" or "\r\n" adds no empty line: the lines are the same as without it |
| `Text.ContainsOccurs` | src/lib.rs:55 | Contains holds exactly when the query occurs at some position of the line |
| `Text.NotContainsFirst` | src/lib.rs:55 | a non-empty query whose first character is absent from the line is not contained |
| `Text.Lower` | src/lib.rs:62 | never yields an ASCII capital: 'A'-'Z' go to the matching 'a'-'z', and every other character is unchanged |
| `Text.LowerStr` | src/lib.rs:62 | same length, and each character lower-cased |
| `Text.LowerStrIdempotent` | src/lib.rs:62 | lower-casing twice equals lower-casing once |
| `Text.LowerStrExcludes` | src/lib.rs:62 | a lower-case letter occurs in a lower-cased string only if it or its capital occurred in the original |
| `Text.ContainsLower` | src/lib.rs:55-62 | an exact occurrence is still an occurrence after both sides are lower-cased |
| `Filtering.Filter` | src/lib.rs:55-56 | keeps no more elements than it is given, and each kept element satisfies the predicate |
| `Filtering.FilterSelects` | src/lib.rs:55-56 | filtering keeps exactly the elements that satisfy the predicate, at ascending positions, each unchanged |
| `Filtering.FilterIsSubsequence` | src/lib.rs:55-56 | the filtered sequence is a subsequence of the input |
| `Filtering.FilterMonotone` | src/lib.rs:62-63 | a weaker predicate keeps, in order, everything a stronger one keeps |
| `Filtering.FilterCongruent` | src/lib.rs:62-63 | predicates that agree on the input filter it the same way |
| `Filtering.FilterAll` | src/lib.rs:55-56 | a predicate true on every element keeps the whole input |

## Left out

- `run` (src/lib.rs:36-50): reading the file with `fs::read_to_string`,
  boxing its error, and printing each result with `println!` are I/O. Only
  the choice between the two searches is modelled, as `SimpleGrep.Results`.
  A file that cannot be read or decoded is therefore not modelled either.
- SimpleGrep.Next: the arguments are a sequence, which assumes that the
  argument iterator stays exhausted once it has returned `None`, as
  `env::args()` does. `Config::build` accepts any `impl Iterator`, and Rust
  does not promise that of every iterator; after a `None` from the skip,
  the next `args.next()` call is still made.
- The process environment: the outcome of the one lookup of `IGNORE_CASE`
  is a parameter of `Build` (`EnvLookup`).
- Text.Lower: lower-cases only ASCII 'A'-'Z'. Rust's `to_lowercase` uses
  the full Unicode tables, including characters that lower-case to several
  characters and the context rule for final sigma. Those tables are not
  part of this model, and the case-insensitive search inherits this
  restriction.
- SimpleGrep.InsensitiveIncludesSensitive: the inclusion is proved only
  for lower-casing that works one character at a time, as the ASCII
  `Text.Lower` does. It does not hold for Rust's `to_lowercase`, whose
  final-sigma rule makes a word-final 'Σ' become 'ς' and not 'σ'. For
  example, take contents "ΟΔΟΣ" and query "Σ". The case-sensitive search
  keeps the line. But "οδος" does not contain "σ", so the real
  case-insensitive search drops it.
- Strings are sequences of characters. UTF-8 encoding and byte offsets are
  not modelled.
- Results are values rather than borrowed views into the contents.
  `Filtering.Selects` still says that each result is, unchanged, the line
  at its position.
