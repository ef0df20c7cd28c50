# minigrep in Dafny

minigrep is a small command-line search tool. It takes a query and a file
path, reads the file, and prints every line that contains the query, with
the line's leading and trailing whitespace removed. Matching is either
case-sensitive or case-insensitive. A fourth argument containing
`IGNORE_CASE` switches case off. A fourth argument without the marker
makes the search case-sensitive, whatever the environment holds. Without a
fourth argument, case is ignored when looking up the environment variable
`IGNORE_CASE` succeeds: the variable is set, to a valid Unicode value.

This project models the library half of the program, `src/lib.rs`:

- `Config::build`, which turns the argument list into a configuration or
  an error, is the pure function `MiniGrep.Build`. The environment lookup
  is its parameter `envHasIgnoreCase`.
- `search`, the fold over the lines of the text, is the imperative method
  `MiniGrep.Search`. Its loop pushes onto a result sequence. It is proved
  equal to the specification function `MiniGrep.SearchResult`, whose
  meaning is stated by lemmas:
  - exactly the matching lines, trimmed;
  - in document order, with one entry per matching line;
  - never more than the number of lines;
  - everything, when the query is empty;
  - a subsequence of the case-insensitive result, when case-sensitive.
    This holds for the model's ASCII-only lowercasing, not for Rust's full
    Unicode lowercasing (see `Text.Lower` under "## Left out").

The string operations `search` relies on are modelled in module `Text`:

- Rust's `str::lines`: split at `\n`, and drop one `\r` before each `\n`.
- `str::trim`: the Unicode White_Space characters at both ends.
- `str::contains`: a substring test.
- lowercasing.

Each comes with lemmas that characterise it without referring to its
definition.

The three unit tests of `src/lib.rs` (lines 66-103) are the lemmas of
module `Scenarios`. They are about the same five-line text, whose lines
after the first are indented by nine spaces.

Files:

- `text.dfy`: module `Text`.
- `minigrep.dfy`: module `MiniGrep`.
- `scenarios.dfy`: module `Scenarios`.

## Model

| member | source | states |
|---|---|---|
| MiniGrep.Build | src/lib.rs:10-29 | Fails exactly when there are fewer than three arguments, with the error "not enough argumenrts". Otherwise query and file path are `args[1]` and `args[2]`. With a fourth argument, case is ignored iff it contains `IGNORE_CASE`. Without one, case is ignored iff the environment lookup succeeded. |
| MiniGrep.BuildEnvironmentIrrelevant | src/lib.rs:18-22 | When there are too few arguments, or a fourth argument is present, the environment does not affect the outcome. |
| MiniGrep.BuildIgnoresExtraArguments | src/lib.rs:15-22 | Arguments after the fourth do not change the outcome. |
| MiniGrep.Search | src/lib.rs:32-45 | The loop that lowercases the query once and pushes each matching line, trimmed, returns the specification result `SearchResult`. |
| MiniGrep.Kept | src/lib.rs:37-44 | The fold never yields more entries than there are lines. |
| MiniGrep.KeptIndexed | src/lib.rs:37-44 | Each result entry is some passing line, trimmed. The source lines are strictly increasing, so order is kept and duplicates are not merged. Every passing line appears. |
| MiniGrep.IndexedKept | src/lib.rs:37-44 | Conversely, any sequence with such an index witness is the fold's result. |
| MiniGrep.KeptAppend | src/lib.rs:37-44 | Folding over two runs of lines gives the two results concatenated. Each line is judged alone. |
| MiniGrep.KeptAll | src/lib.rs:37-44 | A test every line passes keeps all lines, trimmed, one for one. |
| MiniGrep.KeptWeaker | src/lib.rs:38-41 | A weaker test keeps a supersequence of what a stricter test keeps. |
| MiniGrep.KeptFromSubsequence | src/lib.rs:37-44 | The result is the trim of each element of a subsequence of the lines, each of which passes. |
| MiniGrep.SearchIndexed | src/lib.rs:32-45 | The result of `search` is the trimmed matching lines of the text, in order, one per matching line. |
| MiniGrep.SearchUnique | src/lib.rs:32-45 | Only that sequence is: any indexed list of the trimmed matching lines equals the result. |
| MiniGrep.SearchFromSubsequence | src/lib.rs:34-44 | The result is the trim of a subsequence of the lines, all of which match. Its length is at most the number of lines. |
| MiniGrep.SearchEmptyQuery | src/lib.rs:38-41 | The empty query returns every line, trimmed, in either case setting. |
| MiniGrep.MatchesIgnoringCase | src/lib.rs:33-41 | A line that contains the query verbatim also contains it after both are lowercased (ASCII lowercasing only). |
| MiniGrep.SearchIgnoringCaseKeepsMore | src/lib.rs:38-41 | The case-sensitive result is a subsequence of the case-insensitive one (ASCII lowercasing only). |
| Text.Lines | src/lib.rs:35 | No line holds a `\n`, and there are never more lines than characters. |
| Text.LinesOfTerminated | src/lib.rs:35 | Splitting lines that are each followed by `\n` gives those lines back. |
| Text.LinesOfJoined | src/lib.rs:35 | Splitting lines joined by `\n` gives them back, when the last line is not empty. |
| Text.LinesCons | src/lib.rs:35 | A line up to the first `\n` comes first, without a trailing `\r`, followed by the lines of the rest. |
| Text.LinesFinalNewline | src/lib.rs:35 | A final `\n` after a non-empty text adds no empty line. |
| Text.TrimStart | src/lib.rs:39 | Removing leading whitespace never lengthens a string. |
| Text.TrimStartSpec | src/lib.rs:39 | The result is a suffix. Everything removed is whitespace. The result does not start with whitespace. |
| Text.TrimEnd | src/lib.rs:39 | Removing trailing whitespace never lengthens a string. |
| Text.TrimEndSpec | src/lib.rs:39 | The result is a prefix. Everything removed is whitespace. The result does not end with whitespace. |
| Text.Trim | src/lib.rs:39 | Trimming never lengthens a string. |
| Text.TrimIsWindow | src/lib.rs:39 | The trim is a window `s[a..b]` with only whitespace outside it. When the window is non-empty, it starts and ends with non-whitespace. |
| Text.TrimIdempotent | src/lib.rs:39-41 | Trimming twice is trimming once. |
| Text.LowerChar | src/lib.rs:33 | Maps 'A'..'Z' to 'a'..'z' and leaves every other character alone. |
| Text.LowerSlice | src/lib.rs:38 | Lowercasing commutes with slicing. |
| Text.ContainsLower | src/lib.rs:38 | Containment survives lowercasing both sides. |
| Text.ContainsEmpty | src/lib.rs:38-40 | Every string contains the empty string. |
| Text.NotContainsByChar | src/lib.rs:40 | A string lacking one of the query's characters does not contain the query. |
| Text.NotContainsAfter | src/lib.rs:40 | Extends non-containment to a prefix lacking the query's first character. |
| Scenarios.ContentsLines | src/lib.rs:59-64 | The test text splits into its five lines, the last four indented by nine spaces. |
| Scenarios.ZeroResults | src/lib.rs:66-77 | Searching case-sensitively for "not_exisiting_part" finds nothing. |
| Scenarios.CaseSensitiveOneResult | src/lib.rs:79-90 | Searching case-sensitively for "duct" finds only "safe, fast, productive.". |
| Scenarios.CaseInsensitiveTwoResults | src/lib.rs:92-103 | Searching case-insensitively for "rUsT" finds "Rust:" and "Rust rocks.". |

## Left out

- `run` (src/lib.rs:47-54) is not modelled because it is I/O: it reads the file and prints each line of the search result.
- `env::var("IGNORE_CASE").is_ok()` becomes the parameter `envHasIgnoreCase` of `MiniGrep.Build`. Note that `is_ok()` is also false when the variable is set to a value that is not valid Unicode, so the flag means "the lookup succeeded", not "the variable is set".
- Text.Lower: Rust's `to_lowercase` is full Unicode lowercasing. The model only lowercases 'A'..'Z' and leaves every other character unchanged. This includes characters whose Unicode lowercase differs, or is longer than one character. Two proved properties depend on this: `MiniGrep.MatchesIgnoringCase` and `MiniGrep.SearchIgnoringCaseKeepsMore` hold for ASCII lowercasing only. Rust applies the final-sigma rule, so with query "Σ" and text "ΑΣ" the case-sensitive `search` returns ["ΑΣ"]. The case-insensitive one returns [], because "ΑΣ" lowercases to "ας", which does not contain "σ".
- Borrowing is not modelled. `search` returns slices borrowed from `contents`; the model returns copies of the characters. The relation to the text is stated by `MiniGrep.SearchFromSubsequence` and `MiniGrep.KeptIndexed` instead.
- The error type: `Config::build` returns a `&str`, which is modelled as a `string`. Any error-kind classification beyond that message is not present in the code and not modelled.
- Text.Lines follows current Rust: a `\r` is removed only before a `\n`. A final line without a line feed keeps a trailing `\r`. Older Rust releases also stripped it there.
- Calling `search` twice with the same arguments returns the same result. This is immediate, because `SearchResult` is a function, so no lemma states it.
- Strings are sequences of Unicode scalar values (`seq<char>`). The UTF-8 byte layout of Rust strings is not modelled, and neither are byte offsets.
