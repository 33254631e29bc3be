# minigrep in Dafny

A model of the library half of a small line-search utility (`minigrep`).
Given a query, a file name and a case-sensitivity token, the program checks
the arguments, turns them into search terms, and keeps the lines of the
file's contents that contain the query. It matches either exactly or after
lowercasing both the query and each line.

The model has three modules:

- `Text` (`text.dfy`) covers the parts of Rust's `str` that the search uses.
  `Contains` is substring containment, specified as "the query is a prefix of
  some suffix". `ToLower` is lowercasing, restricted to ASCII. `Lines` is
  `str::lines`.
- `Search` (`search.dfy`) holds `search_case_sensitive` and
  `search_case_insensitive`. Each is a method with the source's loop: it walks
  the lines and appends every hit to a sequence. Both are proved equal to one
  specification function, `Select`: the matching lines, in order. The
  dispatch on the flag inside `run` is the method `Run`.
- `Config` (`config.dfy`) holds `validate_args`, the token helpers,
  `extract_terms_properties_from_args`, `create_terms_struct` and
  `Terms::new`. These are functions over a raw `Args` record and a `Terms`
  record. Errors come back as `Err` with the source's message.

`str::lines` follows the current Rust standard library. The text is split
after each `'\n'`. A piece ended by `'\n'` loses that `'\n'` and then one
trailing `'\r'`, if it has one. A final `'\n'` does not start an empty last
line. The empty string has no lines. A lone `'\r'` at the very end of text
with no final `'\n'` is kept.

Where the code and the prose description differ, the model follows the code:

- `parse_true_or_false_argument` reads every string other than "f"/"F" as
  case-sensitive, including invalid ones.
- `Terms::new` still yields case-sensitive only for "t"/"T", because
  validation runs first.

## Model

| member | source | states |
|---|---|---|
| `Search.SearchCaseSensitive` | src/lib.rs:106-116 | the result is exactly `Select` over `Lines(contents)` with plain containment: the lines containing the query, in order |
| `Search.SearchCaseInsensitive` | src/lib.rs:118-129 | the result is exactly the original-cased lines whose lowercase form contains the lowercased query, in order |
| `Search.Run` | src/lib.rs:11-15 | a set flag gives the case-sensitive result; a clear flag gives the case-insensitive one |
| `Search.SelectMembership` | src/lib.rs:109-112 | a string is in the result if and only if it is one of the lines and it matches |
| `Search.SelectLength` | src/lib.rs:122-125 | the result is never longer than the list of lines |
| `Search.SelectIndices` | src/lib.rs:109-112 | the result is the matching lines in their original order: each result sits at a strictly increasing line position, and every matching position appears, so nothing is dropped or repeated |
| `Search.SelectAppend` | src/lib.rs:109-113 | one more line adds that line to the result exactly when it matches, and adds nothing otherwise |
| `Search.SelectEmptyQuery` | src/lib.rs:110 | an empty query returns every line unchanged, in either mode |
| `Search.SensitiveRefinesInsensitive` | src/lib.rs:110-123 | every case-sensitive hit is also a case-insensitive hit: the case-sensitive result is the case-insensitive result filtered again |
| `Search.InsensitiveIgnoresQueryCase` | src/lib.rs:119 | the case-insensitive result does not depend on the casing of the query |
| `Search.CaseSensitiveScenario` | src/lib.rs:143-149 | query "duct" on the test's three lines gives only "safe, fast, productive." |
| `Search.CaseInsensitiveScenario` | src/lib.rs:151-160 | query "rUst" on the test's four lines gives "Rust:" and "Trust me.", in their original casing |
| `Text.ContainsEmpty` | src/lib.rs:110 | every string contains the empty string |
| `Text.ContainsToLower` | src/lib.rs:119-123 | containment survives lowercasing both sides |
| `Text.LowerChar` | src/lib.rs:119 | the result is never an uppercase letter; `A`..`Z` map to the letter 32 code points up; every other character is unchanged |
| `Text.ToLowerIdempotent` | src/lib.rs:119 | lowercasing an already lowercased string changes nothing |
| `Text.ToLowerIsLetter` | src/lib.rs:93 | the only strings whose lowercase form is one given lowercase letter are that letter and its uppercase partner |
| `Text.NewlineIndex` | src/lib.rs:109 | the result is the position of the first `'\n'`, or the length when there is none |
| `Text.StripCR` | src/lib.rs:109 | the result is the line, or the line without its last character exactly when that character is `'\r'` |
| `Text.LinesAt` | src/lib.rs:109 | text splits at its first `'\n'`: the piece before it (without a trailing `'\r'`) comes first, then the lines after it |
| `Text.LinesOfJoined` | src/lib.rs:109 | splitting plain lines joined by `'\n'` gives them back, when the last one is not empty |
| `Text.LinesFinalNewline` | src/lib.rs:109 | a final `'\n'` adds no line |
| `Text.LinesHaveNoNewline` | src/lib.rs:109 | no line holds a `'\n'` |
| `Text.LinesCount` | src/lib.rs:109 | there are never more lines than characters |
| `Config.IsInvalidCaseSensitiveCharacter` | src/lib.rs:92-94 | true if and only if the token is none of "f", "F", "t", "T" |
| `Config.ParseTrueOrFalseArgument` | src/lib.rs:96-104 | false if and only if the token is "f" or "F" |
| `Config.ValidateArgs` | src/lib.rs:76-90 | the checks run in a fixed order. An empty query gives the missing-query error whatever else holds. A non-empty query with an empty file gives the missing-file error. Otherwise a bad token gives the invalid-argument error. The result is `Ok(true)` exactly when all three checks pass |
| `Config.ExtractTermsProperties` | src/lib.rs:69-71 | the query and file come out unchanged; the flag is false exactly for "f"/"F" |
| `Config.CreateTerms` | src/lib.rs:62-66 | the built `Terms` has the query and file unchanged; its flag is false exactly for "f"/"F" |
| `Config.NewTerms` | src/lib.rs:52-59 | succeeds if and only if validation succeeds, and otherwise passes on validation's error. On success the query and file are copied unchanged and are both non-empty, and the flag is set if and only if the token is "t"/"T" |
| `Config.NewTermsOfArgsOf` | src/lib.rs:52-71 | every `Terms` with a non-empty query and file is what `NewTerms` makes of its own spelled-out arguments |
| `Config.ArgsOfNewTerms` | src/lib.rs:52-71 | arguments that validate equal the spelled-out arguments of their `Terms`, up to the casing of the token |
| `Config.DefaultFileRejected` | src/lib.rs:33 | with the default (empty) file name, `NewTerms` always fails: with the missing-query error when the query is empty, with the missing-file error otherwise |
| `Config.DefaultIsCaseInsensitive` | src/lib.rs:37 | with the default token "f", valid terms have the flag cleared |

## Left out

- Reading the file (`fs::read_to_string`) and printing each result (`println!`) in `run` are I/O. `Search.Run` takes the contents as a parameter and returns the lines it would print.
- `parse_args` and the command-line parser derived on `Args` are a foreign library. `Args` is a plain record of three strings, and the parser's defaults appear as `DefaultFile` and `DefaultCaseSensitive`.
- `src/main.rs` only prints errors and exits the process.
- `src/lib_tests.rs` is not compiled into the crate. It calls a function that does not exist, so nothing is derived from it.
- The commented-out `progress_bar` is dead code.
- `Text.ToLower`: Rust's `to_lowercase` applies the full Unicode lowercase mapping. The model lowercases only ASCII `A`..`Z`. For the case-sensitivity token this gives the same answers, because no other character lowercases to `f` or `t`. For lines and queries with non-ASCII letters, the model's case-insensitive matches can differ from the program's.
- The search returns owned copies of the lines; the program returns borrowed views into the contents. The values are the same.
