# BrewData setup script: profile resolution, download progress and stage upload

`brewdata_setup.py` prepares a dbt + Snowflake project for the BrewData package.
It finds the dbt connection profile for the current directory, downloads the
package archive (or reuses a local copy) and uploads it to a Snowflake stage.
This Dafny project models the decision and string logic of that script once its
inputs are given as values:

- **ProfileResolver** (`get_dbt_profile`). The profile store is the parsed
  `profiles.yml`: a dict of profiles whose keys keep their file order, each with
  an optional `target` and optional `outputs`. The console is the sequence of lines
  the user types. A line past the end is the `EOFError` of `input()`.
  - The candidate profile name is the whole working-directory path with `-` replaced by `_`.
  - The profile is chosen by exact key, else by the first key equal up to case,
    else by an index typed by the user.
  - The default target is the profile's `target` field, or `dev`.
  - A y/n prompt repeats until it reads `y` or `n`. On `y`, a target is picked by index.
  - `int()` and Python list indexing follow Python's rules for the lines a user
    types: whitespace stripping, signs, `_` digit separators, and negative
    indices. The exceptions are listed under "Left out".
  - `PickProfile`, `PromptYesNo` and `GetDbtProfile` follow the script's loops step
    by step. Each is proved equal to a specification function (`ChooseProfile`,
    `AwaitYesNo`, `Resolve`), and the lemmas state the source's properties about
    those functions.
- **PackageFetcher** (`download_brewdata_package`).
  - The reuse prompt reads one line with no retry.
  - Progress is shown only above 1 MiB. The streaming loop accumulates the chunk
    lengths and redraws a 50-column bar with floor-divided MB figures.
- **StageUploader** (`create_snowflake_stage_and_upload`).
  - The fully qualified stage name is built from the default or the upper-cased
    stage name.
  - The `CREATE STAGE` statement is built from that name.
  - The `PUT` command uses the local path with backslashes turned into slashes.
- **PyBuiltins**: the Python built-ins the script relies on (`str.replace`,
  `lower`, `upper`, `int` with its own whitespace stripping, `str`, list
  indexing).

## Model

| member | source | states |
|---|---|---|
| `PyBuiltins.ReplaceChar` | brewdata_setup.py:25 | `s.replace(from, to)` keeps the length, puts `to` exactly where `from` was and leaves every other character in place |
| `PyBuiltins.ReplaceCharSettles` | brewdata_setup.py:154 | after the replacement no `from` remains, and replacing again changes nothing |
| `PyBuiltins.Lower` | brewdata_setup.py:49 | `lower()` keeps the length and lowers each character |
| `PyBuiltins.Upper` | brewdata_setup.py:141 | `upper()` keeps the length and upper-cases each character |
| `PyBuiltins.UpperSettles` | brewdata_setup.py:141 | an upper-cased string has no lower-case letter and is its own upper case |
| `PyBuiltins.UpperEqIffLowerEq` | brewdata_setup.py:141 | two strings have equal upper cases exactly when they have equal lower cases |
| `PyBuiltins.ParseInt` | brewdata_setup.py:58 | `int(line)` succeeds exactly when the line, with the whitespace `int()` strips removed from both ends, is an optional sign followed by digits with single `_` between them; the digits' value is the magnitude of the result, which is negative only after a `-` |
| `PyBuiltins.ParseIntCharset` | brewdata_setup.py:58 | a line `int()` accepts holds only whitespace, digits, `_`, `+` and `-`; any other character is a `ValueError` |
| `PyBuiltins.ParseRender` | brewdata_setup.py:58 | `int(str(n)) == n` for every model integer, negative ones included (no digit limit, see "Left out") |
| `PyBuiltins.ParsePaddedRender` | brewdata_setup.py:75 | `int()` accepts a number with whitespace it strips before and after it: ASCII tab, newline, vertical tab, form feed, carriage return, space, and the non-ASCII `str.isspace` characters |
| `PyBuiltins.ParseIntKeepsSeparators` | brewdata_setup.py:58 | a number typed after one of U+001C..U+001F, which `int()` does not strip, is a `ValueError` |
| `PyBuiltins.PyIndex` | brewdata_setup.py:59 | `xs[i]` succeeds exactly for `-len(xs) <= i < len(xs)` and yields `xs[i]`, counting a negative `i` from the end |
| `PyBuiltins.PyIndexNegativeAlias` | brewdata_setup.py:76 | index `k` and index `k - len(xs)` select the same element |
| `ProfileResolver.CandidateName` | brewdata_setup.py:22-25 | the candidate is the whole path, same length, every `-` now `_`, every other character unchanged, no `-` left |
| `ProfileResolver.FirstCaseMatch` | brewdata_setup.py:47-52 | the result is the first key equal to the candidate up to case; no result means no key matches |
| `ProfileResolver.SelectByIndex` | brewdata_setup.py:55-59 | succeeds exactly when a line is left, it parses as an integer `i`, and `i` is a valid Python index; it then reads one line and yields `keys[i]`, counting a negative `i` from the end; a missing line is `EndOfInput`, a non-number is `NotANumber`, and an integer outside the list is `IndexOutOfRange(i)` |
| `ProfileResolver.AwaitYesNo` | brewdata_setup.py:65-70 | succeeds exactly when some remaining line is `y`/`n` in either case; it stops at the first such line, every line before it was rejected, the answer is "change" exactly for `y`, and otherwise the error is `EndOfInput` |
| `ProfileResolver.ChooseProfile` | brewdata_setup.py:41-59 | the chosen profile is a key of the store, and at most the lines that exist are read |
| `ProfileResolver.DefaultTarget` | brewdata_setup.py:62 | `.get('target', 'dev')`: the profile's `target` field when present, else `dev` |
| `ProfileResolver.LookupTarget` | brewdata_setup.py:78 | `outputs[name]` succeeds exactly when `name` is an output, and returns that output's record |
| `ProfileResolver.ChooseTarget` | brewdata_setup.py:61-78 | a success selects an output of the profile and returns its record, after reading at least the y/n line |
| `ProfileResolver.Resolve` | brewdata_setup.py:19-80 | a success names a profile of the store and one of its outputs, returns that output's record, and reads between one line and all lines |
| `ProfileResolver.PickProfile` | brewdata_setup.py:41-59 | the membership test and `for ... else` scan compute exactly `ChooseProfile` |
| `ProfileResolver.PromptYesNo` | brewdata_setup.py:66-70 | the re-prompting `while` loop computes exactly `AwaitYesNo` |
| `ProfileResolver.GetDbtProfile` | brewdata_setup.py:19-80 | the step-by-step resolution computes exactly `Resolve` |
| `ProfileResolver.YesNoLines` | brewdata_setup.py:67 | the prompt accepts exactly `y`, `Y`, `n` and `N`, so no trimming happens |
| `ProfileResolver.ResolveProfileOrder` | brewdata_setup.py:41-59 | an exact key is used with no line read; else the first case-insensitive match is used with no line read; else line 1 selects by index, and each failure of that selection is the result |
| `ProfileResolver.SelectTypedIndex` | brewdata_setup.py:56-59 | typing the listed index `k`, or `k - len(keys)`, with whitespace `int()` strips around it, selects key `k` and reads one line |
| `ProfileResolver.DeclinedKeepsDefault` | brewdata_setup.py:62 | after `n`, the target is the `target` field or `dev`; resolution succeeds exactly when that target is an output |
| `ProfileResolver.AcceptedPicksByIndex` | brewdata_setup.py:71-78 | after `y`, the target is the one picked by index from the outputs, and a failed pick fails the resolution |
| `ProfileResolver.AwaitYesNoIgnoresLaterLines` | brewdata_setup.py:66-70 | lines after the accepted answer never affect the prompt |
| `ProfileResolver.ResolveIgnoresUnreadLines` | brewdata_setup.py:19-80 | any outcome other than running out of input is unchanged when more lines follow |
| `ProfileResolver.ChooseProfileIgnoresUnreadLines` | brewdata_setup.py:41-59 | the profile choice reads at most the first line: when it does not run out of input, more lines do not change it |
| `ProfileResolver.ChooseTargetIgnoresUnreadLines` | brewdata_setup.py:61-78 | the target choice reads its lines in order: when it does not run out of input, more lines do not change it |
| `PackageFetcher.ReuseDecision` | brewdata_setup.py:89-93 | the prompt runs only if the archive exists, reads exactly one line, reuses exactly for `y`/`Y`, and downloads on any other line without retrying |
| `PackageFetcher.ShowsProgress` | brewdata_setup.py:106-107 | progress is drawn exactly when the declared size is above 1 MiB, so the MB total it prints is at least 1; at or below 1 MiB nothing is drawn |
| `PackageFetcher.Repeat` | brewdata_setup.py:113 | `c * n` has `max(n, 0)` copies of `c` |
| `PackageFetcher.FrameAt` | brewdata_setup.py:112-113 | a redraw records the bytes so far and a non-negative fill count |
| `PackageFetcher.DownloadProgress` | brewdata_setup.py:106-113 | no redraws at or below 1 MiB; otherwise one redraw per chunk, the i-th drawn from the sum of the first i+1 chunk lengths |
| `PackageFetcher.DoneBound` | brewdata_setup.py:112 | while `downloaded <= total`, `50*downloaded // total` lies in 0..50 and equals 50 exactly when all bytes arrived |
| `PackageFetcher.DoneMonotone` | brewdata_setup.py:112 | more bytes never give fewer filled columns |
| `PackageFetcher.SumPrefixMonotone` | brewdata_setup.py:110 | the running `downloaded` total never decreases |
| `PackageFetcher.ProgressMonotone` | brewdata_setup.py:108-113 | across the redraws of one download, `done` is non-decreasing |
| `PackageFetcher.BarShape` | brewdata_setup.py:112-113 | while `downloaded <= total`, the bar is exactly 50 columns, `=` exactly in the first `done` ones, and full exactly at the end |
| `PackageFetcher.BarWidensPastDeclaredSize` | brewdata_setup.py:113 | a fill count above 50 happens only when more bytes arrive than declared, and the bar then widens to `done` columns |
| `PackageFetcher.FinalFrameFull` | brewdata_setup.py:108-113 | a body of exactly the declared size ends with a full bar of 50 `=` and equal MB figures |
| `StageUploader.StageSuffix` | brewdata_setup.py:138-141 | an absent or empty name gives `BREWDATA_STAGE`; a given name is upper-cased character by character, keeping its length; the result has no lower-case letter |
| `StageUploader.QualifiedStageName` | brewdata_setup.py:138-141 | the name is `<database>.<schema>.` unchanged, followed by the stage part |
| `StageUploader.StageNameCaseInsensitive` | brewdata_setup.py:141 | two non-empty stage names give the same qualified name exactly when they are equal up to case |
| `StageUploader.StageNameSettles` | brewdata_setup.py:138-141 | passing the stage part of a qualified name back in yields the same qualified name |
| `StageUploader.CreateStageCommand` | brewdata_setup.py:149 | the statement is the fixed `CREATE STAGE IF NOT EXISTS ` text followed by the stage name |
| `StageUploader.NormalizePath` | brewdata_setup.py:154 | the normalised path has the same length, a `/` wherever the path had a backslash, every other character unchanged, and no backslash left |
| `StageUploader.NormalizePathIdempotent` | brewdata_setup.py:154 | normalising twice is normalising once |
| `StageUploader.PutCommand` | brewdata_setup.py:156 | the command is `PUT file://`, the normalised path, ` @`, the stage, then ` AUTO_COMPRESS=FALSE OVERWRITE=TRUE` |
| `StageUploader.PutCommandRoundTrip` | brewdata_setup.py:154-156 | the `PUT` command has the fixed prefix and options, and the normalised path and stage read back from it intact |
| `StageUploader.UploadTargetsQualifiedStage` | brewdata_setup.py:138-156 | the script's `PUT` names the normalised path and the qualified stage, for names without `@` |

## Left out

- Loading `profiles.yml`, the Windows/POSIX profile path and the missing-file
  error. These are file-system and environment I/O. The model takes the parsed
  store, with string keys and string `target` values.
- `os.getcwd()`, `Path.resolve()` and `os.path.abspath`. These are OS calls. Their
  results are opaque input strings.
- The HTTP request, its status check, the `content-length` header and the file
  writes. These are network and disk I/O. The body is a sequence of chunk lengths,
  and the declared size is an integer parameter.
- The float division in `int(50 * downloaded / total_size)`. It is modelled as
  integer floor division, and IEEE rounding is not modelled. While
  `0 <= downloaded <= total_size < 2^47` bytes the two agree: `50 * downloaded` is
  exact, and the quotient is at least `1/total_size` below the next integer, more
  than half a unit in the last place. Near 2^48 bytes they can differ by one
  column: `total_size = 281474976710697` and `downloaded = 185773484629060` give
  33 in Python and 32 in the model.
- The Snowflake connection, `cursor.execute` and the `finally: conn.close()`.
  These are foreign library calls and resource handling. Only the statement text
  is modelled.
- `main`: argparse, removing the archive, the printed usage template and the exit
  code. These are orchestration and console output. `install_required_packages`
  is not modelled because its only call is commented out.
- All printed text except the progress bar and its MB figures, including the
  "Downloading N MB file..." header line.
- `PyBuiltins.Lower` and `PyBuiltins.Upper` cover ASCII letters only. Python's
  Unicode case mapping is not modelled, for example `'ß'.upper() == 'SS'`, which
  changes length. The y/n prompts are exact under this model.
- `PyBuiltins.ParseInt` accepts ASCII digits only. Python's `int()` also accepts
  other Unicode decimal digits. It strips the whitespace `int()` strips: ASCII
  tab, newline, vertical tab, form feed, carriage return and space, and the
  non-ASCII `str.isspace` characters, but not U+001C..U+001F.
- `PyBuiltins.ParseInt` and `PyBuiltins.Render` have no digit limit. Since Python
  3.11 and the 3.10.7, 3.9.14, 3.8.14 and 3.7.14 security releases, `int()` and `str()` raise `ValueError` for more than 4300 digits. Such a
  typed index is `NotANumber` in Python but `IndexOutOfRange` in the model.
  `PyBuiltins.ParseRender` holds for every integer in the model, and only for
  integers of at most 4300 digits in those Python versions.
- `StageUploader.PutCommandRoundTrip` reads the command back only for stage names
  without `@`. A name containing `@` makes the command ambiguous.
