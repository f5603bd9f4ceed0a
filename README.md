# variable2static: a Dafny model of the selection, conflict and renaming logic

variable2static turns variable TrueType fonts into one static font per weight of
its weight table. This project models the decision logic around that
conversion.

- **Font selection** (`select_fonts`, and `process_variable_fonts` in `main.py`):
  spaces are removed from the line, which is split on `,`. Each part must be `n` or
  `n-m`, and a reversed range is swapped. A part that does not parse makes the whole
  line "no selection". The numbers are deduplicated, sorted and resolved against the
  1-based numbering of the font list. Numbers outside the list are dropped. In
  `select_fonts` an empty result or a non-empty confirmation line gives no selection;
  `process_variable_fonts` has no empty check.
- **Overwrite prompt** (`get_overwrite_choice`, and the inline loop in `main.py`):
  the prompt re-reads console lines until the normalised line is one of
  `o`, `s`, `O`, `S`, `c`.
- **The per-font loop** (`create_static_fonts` in the package and in `main.py`):
  - one target `{dir}/{stem}-{weight}.ttf` per weight of the table;
  - the prompt appears only when some target exists and the run-wide `overwrite_mode`
    (unset, `"all"` or `"skip_all"`) is unset;
  - the answer filters the targets, may set the mode, or cancels the whole run;
  - under `"skip_all"` existing targets are dropped;
  - one instance is created per remaining target.
- **`main`**: keeps the system font paths whose lowercase form ends in `.ttf`,
  sorted, and hands the selection to the per-font loop.
- **`update_font_names`** (identical in `main.py` and the directory script):
  name IDs 1, 3 and 4 get `" " + weight`; name ID 6 loses its spaces and gets
  `"-" + weight`; other records stay as they are.
- **The directory script**: the fixed nine-entry weight table, and for each `.ttf`
  entry of a directory one instance per weight under `{dir}/output/{stem}/`.

The outside world is data:

- The filesystem is a set of existing paths. It grows by each instance the host
  reports as written.
- The console is a sequence of lines with a read position. Running out of lines is
  the `EOFError` that the per-font `except Exception` catches.
- fontTools and `os.path` are the functions of a `FontHost.Host` value:
  - `probe` says whether a font loads and has an `fvar` table;
  - `dirOf` and `stemOf` stand for `dirname` and `splitext(basename(...))[0]`;
  - `saves` says whether instancing and saving succeed.

Modules, one file each:

| file | module | what it holds |
|---|---|---|
| `wrappers.dfy` | `Wrappers` | `Option` |
| `pystr.dfy` | `PyStr` | the Python built-ins the code relies on |
| `ui.dfy` | `Ui` | `variable2static/lib/ui.py` |
| `font_host.dfy` | `FontHost` | the collaborators, as data |
| `package.dfy` | `Package` | `variable2static/__init__.py` |
| `main_script.dfy` | `MainScript` | the `main.py` variants |
| `directory_script.dfy` | `DirectoryScript` | the directory converter |
| `name_table.dfy` | `NameTable` | `update_font_names` |

`PyStr` covers:

- `str.replace(" ", "")`, `str.split`;
- `str.lower`, `str.strip`, `str.endswith`;
- `int()` on an optional `+` and ASCII digits;
- `sorted` on strings;
- `os.path.join`.

Each loop of the source is a Dafny method with its invariants. Each method is proved
equal to a specification function or predicate, and the properties are proved about
those functions. The `main.py` copy of `create_static_fonts` is shaped differently
from the package's:

- its prompt is inline;
- its `"skip_all"` filter is an `elif`;
- after `'S'` it filters once, where the package filters twice.

It is proved to produce exactly the same run as the package's (`MainScript.CreateStaticFonts`).

Two places where the program's own text and its code part ways:

- **Spaces inside a line.** The selection prompt (`lib/ui.py`, line 21) says a space
  after a comma is valid. The code (line 28) removes every ASCII space anywhere, so
  `"1 2"` reads as `12` (`Ui.SpacesIgnored`).
- **`'O'` and `'S'`.** The overwrite prompt (`lib/ui.py`, lines 77-78) offers `'O'` and
  `'S'` as run-wide choices. The code never returns them: see Findings.

The entry points also differ in where they write. The package and `main.py` write each
instance beside its input font. The directory script writes under `{dir}/output/{stem}/`
(line 71 of the script).

## Model

| member | source | states |
|---|---|---|
| `Ui.ParseToken` | src/variable2static/lib/ui.py:30-36 | definition: a part with a `-` must split into exactly two integers, a part without one is one integer; see `Ui.ReversedRange`, `Ui.ThreeBoundsRejected`, `Ui.MissingBoundRejected` |
| `Ui.ParseTokens` | src/variable2static/lib/ui.py:29-36 | definition: every part parsed, failing as soon as one fails; see `Ui.TokensOfParts`, `Ui.FailsIffSomePartFails` |
| `Ui.ParseSelection` | src/variable2static/lib/ui.py:28-37 | definition: spaces removed, split on `,`, the union of the tokens; see `Ui.UnionMembers`, `Ui.SpacesIgnored` |
| `Ui.SpanMembers` | src/variable2static/lib/ui.py:31-34 | a range token `n-m` stands for exactly the integers from min(n,m) to max(n,m) |
| `Ui.ReversedRange` | src/variable2static/lib/ui.py:31-34 | `"a-b"` and `"b-a"` parse, select the same set, and that set is exactly min..max |
| `Ui.SpacesIgnored` | src/variable2static/lib/ui.py:28 | a space anywhere in the line changes nothing: the line with it parses as the line without it |
| `Ui.TokensOfParts` | src/variable2static/lib/ui.py:29-36 | a line that parses has one token per part, each the parse of that part |
| `Ui.FailsIffSomePartFails` | src/variable2static/lib/ui.py:29-41 | the parse of the parts fails exactly when some part fails, so there is no partial selection |
| `Ui.UnionMembers` | src/variable2static/lib/ui.py:29-37 | an integer is selected exactly when some token stands for it |
| `Ui.EmptyPartRejected` | src/variable2static/lib/ui.py:28-41 | any space-free line with two commas in a row, such as `"1,,2"`, gives no selection: the empty part between them is not an integer |
| `Ui.EmptyLineRejected` | src/variable2static/lib/ui.py:28-41 | the empty line gives no selection |
| `Ui.ThreeBoundsRejected` | src/variable2static/lib/ui.py:31 | any single token with two dashes, such as `"1-2-3"`, gives no selection: three pieces do not unpack into two bounds |
| `Ui.MissingBoundRejected` | src/variable2static/lib/ui.py:31 | a range one of whose bounds is not an integer gives no selection |
| `Ui.DashAndLettersRejected` | src/variable2static/lib/ui.py:31 | `"-3"` and `"a-b"` give no selection |
| `Ui.OneNumber` | src/variable2static/lib/ui.py:35-36 | a line holding one decimal number selects exactly that number |
| `Ui.SignedNumber` | src/variable2static/lib/ui.py:35-36 | a line `+n` selects exactly `n`, since `int` accepts the sign |
| `Ui.TwoNumbers` | src/variable2static/lib/ui.py:28-37 | `"x,y"` selects exactly {x, y} |
| `Ui.MixedSelection` | src/variable2static/lib/ui.py:28-37 | `"1, 3-5, 2"` selects {1, 2, 3, 4, 5} |
| `Ui.Interval` | src/variable2static/lib/ui.py:34 | `range(start, end + 1)` holds exactly the integers from start to end |
| `Ui.SortedUnique` | src/variable2static/lib/ui.py:37 | `sorted(set(xs))` is strictly increasing and holds exactly the elements of xs |
| `Ui.Chosen` | src/variable2static/lib/ui.py:43-45 | the chosen pairs are strictly ascending by index, and (i, f) is chosen exactly when 1 <= i <= len(fonts), i is selected and f is the i-th font |
| `Ui.Resolve` | src/variable2static/lib/ui.py:43-45 | definition: the comprehension over the sorted numbers; see `Ui.ResolveMeaning`, `Ui.ResolveIsChosen` |
| `Ui.ResolveMeaning` | src/variable2static/lib/ui.py:43-45 | the comprehension over ascending numbers gives ascending pairs, exactly the numbers that are keys of the map with their fonts |
| `Ui.ResolveIsChosen` | src/variable2static/lib/ui.py:43-45 | resolving against the numbering map gives exactly the chosen fonts |
| `Ui.UnknownNumbersDropped` | src/variable2static/lib/ui.py:43-45 | `"1,99"` over three fonts selects only the first font |
| `Ui.NothingInRange` | src/variable2static/lib/ui.py:43-49 | a number past the end of the font list parses but selects nothing |
| `Ui.NumberFonts` | src/variable2static/lib/ui.py:9-15 | the counter ends at the number of fonts, and the map numbers the fonts 1 to n in order |
| `Ui.ParseSelectionLine` | src/variable2static/lib/ui.py:25-41 | fails exactly when the line does not parse; otherwise gives a strictly increasing list of exactly the selected numbers |
| `Ui.SelectFonts` | src/variable2static/lib/ui.py:4-59 | None when the line does not parse, when nothing is in range, or when the confirmation is not empty; otherwise the chosen fonts |
| `Ui.Normalize` | src/variable2static/lib/ui.py:82-83 | definition: `.lower().strip()` as written, or `.strip()` alone in the case-sensitive reading; see `Ui.LoweredNeverUpper` |
| `Ui.Accepted` | src/variable2static/lib/ui.py:85 | definition: membership in `("o", "s", "O", "S", "c")`; see `Ui.FirstAcceptedAnswer` |
| `Ui.NextChoice` | src/variable2static/lib/ui.py:71-88 | the prompt's result is an accepted normalised answer at a position after the start |
| `Ui.FirstAcceptedAnswer` | src/variable2static/lib/ui.py:71-88 | every answer before the returned one was rejected |
| `Ui.NoAcceptedAnswer` | src/variable2static/lib/ui.py:71-88 | the prompt runs out of lines exactly when no remaining answer is accepted |
| `Ui.LoweredNeverUpper` | src/variable2static/lib/ui.py:72-84 | a lowercased and stripped answer is never `"O"` or `"S"` |
| `Ui.ChoiceIsLower` | src/variable2static/lib/ui.py:82-86 | as written, the prompt only ever returns `"o"`, `"s"` or `"c"` |
| `Ui.UpperAnswersLowered` | src/variable2static/lib/ui.py:72-86 | as written the answer line `"S"` is returned as `"s"` and `"O"` as `"o"` |
| `Ui.PaddedAnswerAccepted` | src/variable2static/lib/ui.py:72-86 | under either normalisation, whitespace around `o`, `s` or `c` is stripped, so a line such as `" o "` is the answer `"o"` |
| `Ui.CaseSensitiveKeepsUpper` | src/variable2static/lib/ui.py:85-86 | without the lowercasing, an answer `"S"` or `"O"` is returned as typed |
| `Ui.GetOverwriteChoice` | src/variable2static/lib/ui.py:62-88 | returns the first accepted answer and the position after it, or reports end of input; as written the result is `o`, `s` or `c` |
| `Package.Targets` | src/variable2static/__init__.py:53-59 | definition: one target per weight of the table; see `Package.TargetsPerWeight` |
| `Package.Clashes` | src/variable2static/__init__.py:54-61 | definition: the (weight, path) of each target whose path exists; see `Package.ClashesIff`, `Package.ClashesAreExistingTargets` |
| `Package.Decide` | src/variable2static/__init__.py:67-83 | definition: the list and mode each answer of the chain leaves; see `Package.PromptedChoice`, `Package.PromptedRunWideChoice` |
| `Package.TargetsPerWeight` | src/variable2static/__init__.py:53-59 | one target per weight, in table order, at `{dir}/{stem}-{weight}.ttf` |
| `Package.ClashesIff` | src/variable2static/__init__.py:60-63 | there is a conflict exactly when some target path exists |
| `Package.ClashesAreExistingTargets` | src/variable2static/__init__.py:54-61 | `existing_fonts` holds exactly the (weight, path) of the targets whose path exists |
| `Package.Missing` | src/variable2static/__init__.py:70-74 | the filter keeps exactly the targets whose path does not exist, each as often as listed, as an order-preserving subsequence |
| `Package.MissingIdempotent` | src/variable2static/__init__.py:79-91 | filtering twice is filtering once |
| `Package.MissingWithoutClash` | src/variable2static/__init__.py:88-91 | with no conflict the filter keeps every target |
| `Package.AfterPrompt` | src/variable2static/__init__.py:63-86 | after the prompt the list is a subsequence of the targets; under `"skip_all"` no listed path exists; a cancel creates nothing; at end of input nothing is created, nothing is cancelled and the mode is kept |
| `Package.PlanFor` | src/variable2static/__init__.py:42-97 | prompted exactly when the font is variable, some target exists and the mode is unset; a font that does not load or has no `fvar` creates nothing and changes nothing; a set mode is kept and no line is read; under `"skip_all"` no created path exists; the list is a subsequence of the targets; a variable font that is not prompted creates every target, or under `"skip_all"` exactly the missing ones; a prompted font whose input has run out creates nothing and keeps the mode |
| `Package.PromptedPlan` | src/variable2static/__init__.py:63-91 | a prompted font's plan is the prompt's outcome for its targets |
| `Package.PromptedChoice` | src/variable2static/__init__.py:67-74 | `'o'` keeps every target, `'s'` keeps exactly the missing ones, `'c'` cancels with nothing created |
| `Package.PromptedRunWideChoice` | src/variable2static/__init__.py:75-91 | `'O'` creates every target and sets `"all"`; `'S'` creates exactly the missing targets and sets `"skip_all"` |
| `Package.PromptedEndOfInput` | src/variable2static/__init__.py:63-111 | when the lines run out at the prompt the font creates nothing, the mode is kept and the input is used up |
| `Package.PlanAfterChoice` | src/variable2static/__init__.py:75-91 | after an answer other than `'c'`, the plan is the decision itself; the second filter after `'S'` removes nothing |
| `Package.CreateAll` | src/variable2static/__init__.py:93-102 | one creation call per listed target, in order, after the earlier calls; a path is added exactly when it is already there or is a listed path whose write succeeded, so an empty list makes no call and a later font sees every written file |
| `Package.FontStep` | src/variable2static/__init__.py:42-111 | definition: one font's plan, then its creations unless it cancels; see `Package.FontStepState` |
| `Package.FontStepState` | src/variable2static/__init__.py:42-111 | a step keeps the plan's mode, position and prompt; a cancel leaves files and calls as they were; otherwise the files and calls are those of creating the plan's targets |
| `Package.Run` | src/variable2static/__init__.py:39-111 | definition: the steps over the selected fonts, ending at a cancel; see `Package.RunAppend`, `Package.CancelIgnoresRest`, `Package.ModeIsSticky` |
| `Package.RunAppend` | src/variable2static/__init__.py:41-111 | running two lists of fonts in turn is running the first and then, unless it was cancelled, the second |
| `Package.CancelIgnoresRest` | src/variable2static/__init__.py:84-86 | once a run is cancelled, no later font is processed |
| `Package.StickyModePlan` | src/variable2static/__init__.py:63-91 | under a set mode a variable font is not prompted: `"all"` creates every target, `"skip_all"` exactly those whose path does not exist |
| `Package.ModeIsSticky` | src/variable2static/__init__.py:40-78 | once the mode is `"all"` or `"skip_all"` it never changes, the prompt is never shown again and no line is read |
| `Package.LoweredPlanKeepsMode` | src/variable2static/__init__.py:63-78 | as written, one font whose mode starts unset leaves it unset |
| `Package.LoweredAnswersNeverSetMode` | src/variable2static/__init__.py:63-78 | as written, a run that starts with the mode unset ends with it unset |
| `Package.SkipAllCarriesOver` | src/variable2static/__init__.py:75-91 | with case-sensitive answers, `'S'` sets `"skip_all"`: the next font is not prompted, and a variable one gets exactly its targets that do not exist yet |
| `Package.OverwriteAllCarriesOver` | src/variable2static/__init__.py:63-78 | with case-sensitive answers, `'O'` sets `"all"`: the next font is not prompted, and a variable one gets every target |
| `Package.SkipAllForgotten` | src/variable2static/__init__.py:63-83 | as written, after `'S'` the mode stays unset and the next conflicting font is prompted again |
| `Package.ComputeTargets` | src/variable2static/__init__.py:50-61 | the loop builds exactly the targets and the conflicts |
| `Package.CreateInstances` | src/variable2static/__init__.py:99-102 | the loop makes exactly the calls and writes of `CreateAll` |
| `Package.ApplyAnswer` | src/variable2static/__init__.py:67-86 | `'c'` and only `'c'` cancels; the chain's list and mode are the decision for the answer, an unmatched answer changing nothing |
| `Package.Prompt` | src/variable2static/__init__.py:63-91 | the prompted branch, with the filter after it, produces exactly the prompt's plan for the first accepted answer |
| `Package.PlanFont` | src/variable2static/__init__.py:43-91 | the step-by-step font body produces exactly `PlanFor`'s plan |
| `Package.CreateStaticFonts` | src/variable2static/__init__.py:39-111 | the loop over the selected fonts produces exactly `Run` from the initial state |
| `Package.IsTtf` | src/variable2static/__init__.py:119 | definition: the lowercase path ends in `.ttf`; see `Package.TtfAnyCase`, `Package.TtfOnly` |
| `Package.TtfAnyCase` | src/variable2static/__init__.py:119 | the extension test ignores case: `"Font.TTF"` and `"font.ttf"` pass, `"font.otf"` does not |
| `Package.TtfOnly` | src/variable2static/__init__.py:115-121 | keeps exactly the paths whose lowercase form ends in `.ttf`, each as often as listed |
| `Package.UserVariableFonts` | src/variable2static/__init__.py:115-121 | exactly the `.ttf` paths, with their multiplicities, in ascending order |
| `Package.ConvertSystemFonts` | src/variable2static/__init__.py:114-134 | stops when no `.ttf` font exists or nothing is selected; otherwise runs the loop on the chosen fonts |
| `PyStr.StripTrimsBothEnds` | src/variable2static/lib/ui.py:82-83 | `strip()` gives the slice of the line left once its leading and trailing whitespace are cut off; that slice is empty or neither starts nor ends with whitespace |
| `PyStr.StripPadded` | src/variable2static/lib/ui.py:82-83 | whitespace put around a text that neither starts nor ends in whitespace is exactly what `strip()` removes |
| `PyStr.LowerAlphabet` | src/variable2static/lib/ui.py:82 | `lower()` maps each ASCII capital `A`…`Z` to its small letter `a`…`z` |
| `PyStr.LowerWithoutCapitals` | src/variable2static/lib/ui.py:82 | `lower()` leaves a string without ASCII capitals unchanged |
| `PyStr.ParseSigned` | src/variable2static/lib/ui.py:36 | `int` accepts a leading `+`: `int("+" + str(n)) == n` |
| `PyStr.SortStrings` | src/variable2static/__init__.py:115 | `sorted` gives an ascending permutation of its input |
| `MainScript.ChooseAction` | src/main.py:84-122 | the inline loop reads and normalises lines as `get_overwrite_choice` does, and then does what the package's decision does: end of input, cancel, or the filtered list and mode for the first accepted answer |
| `MainScript.ApplyChoice` | src/main.py:99-120 | for an accepted answer, `'c'` and only `'c'` cancels, and any other answer gives the package's decision from an unset mode |
| `MainScript.PlanFont` | src/main.py:58-126 | main.py's font body gives the package's plan, in spite of the `elif` filter |
| `MainScript.CreateStaticFonts` | src/main.py:54-147 | main.py's loop produces exactly the package's run |
| `MainScript.ProcessVariableFonts` | src/main.py:150-197 | like `select_fonts` but with no empty check: an empty in-range selection is confirmed and runs the loop on no fonts |
| `NameTable.Renamed` | src/main.py:40-51 | definition: the rename of one record; see `NameTable.RenamedEndsWithWeight`, `NameTable.PostScriptNameHasNoSpaces` |
| `NameTable.RenamedAll` | src/main.py:39-51 | definition: every record renamed in place, in order; see `NameTable.RenamingKeepsIDs`, `NameTable.UpdateFontNames` |
| `NameTable.UpdateFontNames` | src/main.py:37-51 | every record keeps its ID and position; IDs 1, 3 and 4 get `" " + weight`; ID 6 loses its spaces and gets `"-" + weight`; other records are unchanged |
| `NameTable.RenamingKeepsIDs` | src/main.py:39-45 | the table keeps its length, and each record keeps its name ID |
| `NameTable.AcmeSansBold` | src/main.py:47-50 | `"Acme Sans"` with `"Bold"` becomes `"Acme Sans Bold"` for IDs 1 and 4 and `"AcmeSans-Bold"` for ID 6; ID 2 is untouched |
| `NameTable.PostScriptNameHasNoSpaces` | src/scripts/variable_to_static_font_converter.py:22-23 | a renamed PostScript name has no space when the weight label has none |
| `NameTable.RenamedEndsWithWeight` | src/scripts/variable_to_static_font_converter.py:18-24 | a renamed record ends in `" " + weight` (IDs 1, 3, 4) or `"-" + weight` (ID 6) |
| `DirectoryScript.WeightTable` | src/scripts/variable_to_static_font_converter.py:55-65 | nine distinct weight names with values 100, 200, …, 900 in order |
| `DirectoryScript.Instances` | src/scripts/variable_to_static_font_converter.py:33-44 | definition: one attempt per weight, in order; see `DirectoryScript.InstancesPerWeight` |
| `DirectoryScript.Conversion` | src/scripts/variable_to_static_font_converter.py:26-51 | definition: nothing for a font that does not load, every weight otherwise; see `DirectoryScript.CreateStaticFonts` |
| `DirectoryScript.OutputDir` | src/scripts/variable_to_static_font_converter.py:71 | definition: `{dir}/output/{stem}`; see `DirectoryScript.OutputLayout`, `DirectoryScript.EveryTtfEntryConverted` |
| `DirectoryScript.InstancesPerWeight` | src/scripts/variable_to_static_font_converter.py:33-34 | one attempt per weight, in order, at `{output_dir}/{stem}-{weight}.ttf` |
| `DirectoryScript.CreateStaticFonts` | src/scripts/variable_to_static_font_converter.py:26-51 | a font that does not load gives no attempt; otherwise one attempt per weight |
| `DirectoryScript.DirectoryRun` | src/scripts/variable_to_static_font_converter.py:67-76 | every attempt and every output directory comes from a directory entry whose lowercase name ends in `.ttf` |
| `DirectoryScript.EveryTtfEntryConverted` | src/scripts/variable_to_static_font_converter.py:68-76 | every entry whose lowercase name ends in `.ttf` gets its output directory and every attempt of its conversion |
| `DirectoryScript.ProcessFontsInDirectory` | src/scripts/variable_to_static_font_converter.py:53-76 | the loop over the entries produces exactly `DirectoryRun` |
| `DirectoryScript.OutputLayout` | src/scripts/variable_to_static_font_converter.py:70-71 | for a plain directory path and stem, an instance of `B.ext` in `D` is written to `D/output/B/B-{weight}.ttf` |

## Findings

| source | as written | input that shows it | evidently intended | confidence | as-written member | corrected member |
|---|---|---|---|---|---|---|
| src/variable2static/lib/ui.py:72-86 | the answer is lowercased before it is tested against `o`, `s`, `O`, `S`, `c`, so `O` and `S` can never be returned | the answer line `S` returns `s`: "skip this font", not "skip all" | `O` and `S` are returned as typed and set the run-wide mode, as the prompt text offers | high, not executed | `Ui.UpperAnswersLowered` | `Ui.CaseSensitiveKeepsUpper` |
| src/variable2static/__init__.py:63-78 | the `"O"` and `"S"` branches are unreachable, so `overwrite_mode` stays `None` for the whole run | `S` at the first conflicting font, then a second conflicting font: the prompt appears again | after `S`, later conflicting fonts are not prompted and keep their existing files | high, not executed | `Package.SkipAllForgotten` | `Package.SkipAllCarriesOver` |
| src/main.py:85-118 | the inline prompt lowercases the same way, so its `"O"` and `"S"` branches are unreachable too | the answer line `O`: only this font is overwritten, and the next conflicting font is prompted again | `O` and `S` set the run-wide mode | high, not executed | `Package.LoweredAnswersNeverSetMode` | `Package.OverwriteAllCarriesOver` |

The normalisation is a parameter of the model: `Ui.LowerThenStrip` is the code as
written and `Ui.StripOnly` is the intended case-sensitive reading. Every operation and
every property not about this finding holds for both. `MainScript.CreateStaticFonts`
is proved equal to the package's run, so the `main.py` row follows from the package
lemmas.

## Left out

- fontTools is outside the model: `TTFont`, the `fvar` check, `instantiateVariableFont`, `save` and `create_static_font_instance`, imported from `lib.processors` at `__init__.py:10`, whose body is not modelled, are the `Host` functions `probe` and `saves`.
- The name tables' encoding (`toUnicode`, `getEncoding`, `encode`) is not modelled: records carry decoded text.
- `os.path.dirname` and `splitext(basename(...))` are the host functions `dirOf` and `stemOf`. The directory script's `splitext(filename)` on a bare directory entry is taken to be `stemOf` of that entry.
- `os.listdir`, `get_system_fonts_filename` and `os.makedirs` are not modelled. The listings are given sequences, and the directories the script creates are returned as a list.
- Printing and logging are not modelled: messages, the log file and its timestamped name.
- Console lines for `select_fonts` are given strings. An `EOFError` at those two prompts ends the program and is not modelled. At the overwrite prompt it is modelled.
- `int()` is modelled on an optional `+` and ASCII digits. Underscores, other Unicode digits, surrounding tabs or newlines, and the 4300-digit limit are not modelled. `str.lower` and `str.strip`/`isspace` are modelled on ASCII only.
- Memory is not modelled. A line such as `1-10000000000` makes `extend(range(start, end + 1))` (`lib/ui.py:34`, `main.py:176`) build a list of ten billion numbers; the `MemoryError` that follows is not caught by `except ValueError` and ends the program, while `Ui.ParseSelection` returns the set.
- The outer `sorted` over the `(i, font)` pairs is not modelled as a separate step. The input is already strictly ascending by index, so it changes nothing.
- `get_overwrite_choice`'s display arguments (font name, conflict list) only feed printing and are not modelled.
- `src/lib/processors.py` is not part of this model: it only chains system font enumeration to `process_variable_fonts`.
- `lib/weights.py` is not part of this model: `WEIGHTS` is a parameter, a sequence of (label, value) pairs in dictionary order.
- `Package.CreateAll`: if `create_static_font_instance` (imported from `lib.processors` at `__init__.py:10`, whose body is not modelled) raised, the package's per-font handler would skip that font's remaining weights. The model lets every listed target be attempted, with `saves` deciding each write.
- `Package.PlanFor`: an exception raised by `os.path.exists` or `os.path.join` is not modelled.
