# Source selection and prompt assembly of the Cerebras repository analyzer

The analyzer in `src/python/cerebras_analyzer.py` clones a repository,
picks its source files, packs excerpts of them into one audit prompt and
sends that prompt to a language model. This project models, and proves
properties of, the two steps in between that carry logic:

- **Source-file selection** (`collect_source_files`): from the paths a
  recursive directory walk yields, keep, in walk order, the regular files
  whose lower-cased suffix is one of `.js .ts .jsx .tsx .py .java .go .c .cpp`
  and none of whose path components is exactly `node_modules`, `.git`,
  `dist`, `build`, `venv` or `__pycache__`.
- **Prompt assembly** (`build_prompt`): a fixed instruction text naming the
  repository URL and branch, preceded by the caller's prefix line when a
  non-empty prefix is given; then a newline and a body of labelled excerpts
  (`"\n--- parent/name ---\n"`, the first 2000 characters of the file, `"\n"`),
  one per readable file in order. Unreadable files are skipped, and adding
  stops at the first excerpt that would take the body past 15000 characters.

Files:

- `wrappers.dfy` — `Option`.
- `paths.dfy` — the `pathlib` pieces used: a path's name, its suffix (the
  `rfind('.')` rule), ASCII lower-casing, and the `parent/name` label.
- `filtering.dfy` — order-preserving filtering with the positions of the
  kept items, and the lemmas that a filter is an ordered, exact subsequence.
- `source_files.dfy` — the selection rule and `CollectSourceFiles`, a loop
  proved equal to the specification `Select`.
- `prompt.dfy` — the instruction template, excerpts, the budget
  (`Admitted`, `Body`), the loop `AssembleBody` and `BuildPrompt`.

The skip test sees a file's whole absolute path, and the clone is made
under the process's working directory (`temp_clones/` there). So when the
analyzer runs from inside a directory named like a skipped one (`build`,
`dist`, `venv`, `node_modules`, ...), no file is selected and the prompt's
body is empty; the model keeps this behaviour by giving each walked path
all its components.

Inputs that the program obtains by I/O are parameters: the walk is a
sequence of `Entry(path, isFile)` in the order `rglob("*")` yields them,
and each selected file comes with `Some(text)` (what `read_text` returned)
or `None` (reading raised). Strings are sequences of Unicode scalar values,
so lengths and the 2000-character cut agree with Python's `len` and slicing.

## Model

| member | source | states |
|---|---|---|
| `Paths.Name` | src/python/cerebras_analyzer.py:68 | definition: `PurePath.name`, the last component, or `""` for the anchor |
| `Paths.LastDot` | src/python/cerebras_analyzer.py:68 | the index of the last `.` of a name, or -1 exactly when the name has no dot |
| `Paths.Suffix` | src/python/cerebras_analyzer.py:68 | a name has a suffix exactly when it does not end in `.` and has a dot after its first character; the suffix is then a proper ending of the name, starts with its only dot and has at least one more character |
| `Paths.SuffixLower` | src/python/cerebras_analyzer.py:68 | taking the suffix and lower-casing commute, so `p.suffix.lower()` is the suffix of the lower-cased name |
| `Paths.Lower` | src/python/cerebras_analyzer.py:68 | definition: `str.lower()` on ASCII letters, one character at a time; that the suffix test ignores case is `SourceFiles.SourceSuffixIgnoresCase` |
| `Paths.Rel` | src/python/cerebras_analyzer.py:91 | `f.relative_to(f.parent.parent)`: for a path of two or more components, the parent directory's name, a `/`, then the file name (the label ends with the name, and the parent's name and the `/` can be read back from its start); a path of one component is its own name; the anchor alone is `.` |
| `SourceFiles.Keep` | src/python/cerebras_analyzer.py:66-68 | definition, with `HasSourceSuffix` and `InSkippedDir`: an entry is kept when no component of its path is exactly a skipped directory name, it is a regular file, and the lower-cased suffix of its name is a source extension |
| `SourceFiles.SkipSeesDirectoriesAboveClone` | src/python/cerebras_analyzer.py:66 | the skip test looks at the whole absolute path, including the directories above the clone: a file under a working directory inside `venv` is skipped |
| `SourceFiles.CollectSourceFiles` | src/python/cerebras_analyzer.py:60-70 | the loop returns exactly the walk's kept paths in walk order, and every returned path has a source suffix after lower-casing and no component that is a skipped directory name |
| `SourceFiles.SelectIsOrderedSubsequence` | src/python/cerebras_analyzer.py:65-69 | the selection is the walk with exactly the non-kept paths removed: the j-th result is the walk's path at the j-th kept position, the positions increase, and a position is kept if and only if its entry is a regular file with a source suffix outside every skipped directory |
| `SourceFiles.SourceSuffixIgnoresCase` | src/python/cerebras_analyzer.py:68 | two names that lower-case alike are either both accepted or both rejected by the suffix test |
| `SourceFiles.UpperCaseSuffixKept` | src/python/cerebras_analyzer.py:58 | a regular file named `MAIN.PY` is kept: upper-case extensions are accepted |
| `SourceFiles.SkipMatchesWholeComponents` | src/python/cerebras_analyzer.py:63-66 | a file under a directory `build_tools` is kept and the same file under `build` is not: skipping compares whole components |
| `Prompt.Snippet` | src/python/cerebras_analyzer.py:96 | the excerpt of a file's text is a prefix of it, of length the smaller of the text's length and 2000 |
| `Prompt.Template` | src/python/cerebras_analyzer.py:76-84 | definition, with the constants `Opening` and `Request`: the fixed instruction text, with the repository URL on the `- URL:` line and the branch on the `- Branch:` line, ending with the JSON schema line |
| `Prompt.Part` | src/python/cerebras_analyzer.py:97 | definition: `"\n--- " + Rel(path) + " ---\n" + Snippet(text) + "\n"`; its properties are stated by `Prompt.PartCarriesSnippet` |
| `Prompt.PartCarriesSnippet` | src/python/cerebras_analyzer.py:91-97 | one file's labelled part is the header `"\n--- " + rel + " ---\n"`, then the file's first min(length, 2000) characters (the whole text when shorter), then a final newline |
| `Prompt.PartsFollowReadableFiles` | src/python/cerebras_analyzer.py:90-95 | the candidate parts are those of the readable files in file order: the j-th part belongs to the file at the j-th readable position, positions increase, and a file has one if and only if it was read |
| `Prompt.Admitted` | src/python/cerebras_analyzer.py:98-100 | the number of leading parts admitted: together they fit in 15000 characters, and either no part is left or adding the next one would exceed 15000 |
| `Prompt.AdmittedUnique` | src/python/cerebras_analyzer.py:98-100 | any count of leading parts that fits and is followed by nothing or by an overflowing part is the admitted count: the budget rule has a single outcome |
| `Prompt.AdmittedStopsAtFirstOverflow` | src/python/cerebras_analyzer.py:98-99 | every admitted part fitted when it was appended to the ones before it, and the first part left out would have pushed the body past 15000 characters |
| `Prompt.Body` | src/python/cerebras_analyzer.py:88-100 | the body never exceeds 15000 characters and is a prefix of all parts written out in order, so no part after the first rejected one is added, however short |
| `Prompt.AssembleBody` | src/python/cerebras_analyzer.py:88-100 | the loop that skips unreadable files, breaks at the first overflowing part and appends the others computes exactly the specified body |
| `Prompt.AppendStep` | src/python/cerebras_analyzer.py:100 | appending the part of a file that was read extends the written-out parts by exactly that part |
| `Prompt.OverflowAfter` | src/python/cerebras_analyzer.py:98-99 | leading parts that fit, followed by one that would overflow, are exactly the admitted parts: the `break` leaves the specified body |
| `Prompt.AllPartsFit` | src/python/cerebras_analyzer.py:89-100 | when all parts fit together, the body is all of them: a loop that never breaks leaves the specified body |
| `Prompt.BuildPrompt` | src/python/cerebras_analyzer.py:75-102 | the prompt is `prefix + "\n" + template + "\n" + body` for a non-empty prefix and `template + "\n" + body` when the prefix is absent or empty, where the template names the URL and branch |
| `Prompt.PartsStep` | src/python/cerebras_analyzer.py:92-95 | visiting one more file adds its part when it was read and nothing when reading failed |
| `Prompt.ConcatPrefix` | src/python/cerebras_analyzer.py:100 | appending parts only extends the body: fewer leading parts written out are a prefix of more |

## Left out

- `shallow_clone` (git clone into a fresh temporary directory, removal on failure): filesystem and external-tool I/O.
- `analyze_repo` (the HTTP POST to the model service, reading the answer, logging, turning exceptions into an error object, removing the clone): network, async and filesystem I/O.
- Configuration from the environment, the exit when the API key is missing, the command-line handling and `asyncio.run`: process I/O.
- The `temperature`, `max_tokens` and `response_format` request fields: configuration passed to the external service.
- `rglob`, `is_file` and `read_text` themselves: replaced by the input sequences above. The text is what `read_text` returns (decoded, with newlines already translated); its decoding is not modelled.
- Paths are POSIX: the `parent/name` label uses `/`, and the filesystem anchor is dropped from the components (it is never a skipped name). Windows separators and drive anchors are not modelled.
- `Paths.Lower` lower-cases ASCII letters only, where Python's `str.lower` covers all of Unicode. Only two non-ASCII characters lower-case to something containing an ASCII letter: the Kelvin sign (to `k`) and U+0130 (to `i` followed by the non-ASCII U+0307). No source extension contains `k`, and a suffix holding U+0130 lower-cases to a string holding U+0307, which no source extension contains either, so the selection decision is the same for every name.
- `Paths.Suffix` follows the rule of Python 3.12's `pathlib`: a name has a suffix only when its last dot is neither its first nor its last character. Later Python versions changed how `suffix` treats some names; their rule is not modelled.
- File names that are not valid Unicode (undecodable bytes, which Python carries as lone surrogates) are not representable: a Dafny `char` is a Unicode scalar value, so such names, and the labels and lengths they would give, are outside the model.
- The repository's security-posture scoring and its language-model report services are not part of this model: they live in files not modelled here.
