# clouvel tools core, modelled in Dafny

This project models three deterministic parts of the clouvel MCP tools and
proves properties of them.

- **Document gate** (`src/clouvel/tools/core.py`, module `DocGate`). A
  catalog holds five required document kinds, each with filename patterns.
  The nested detection loop splits the catalog into `detected` and
  `missing`. It works on the lower-cased names of the regular files in a
  docs folder.
  - `can_code` turns that split into ALLOWED or BLOCKED.
  - `analyze_docs` reruns the loop and reports critical coverage as a
    numerator/denominator pair.
  - `init_docs` writes the five templates, but only where the name is not
    taken yet.
- **Planning store** (`src/clouvel/tools/planning.py`, module `Planning`).
  It keeps three markdown files, `task_plan.md`, `findings.md` and
  `progress.md`.
  - The files are rendered line for line as the source's f-strings lay
    them out.
  - The goals checklist and the Completed list are read back by the
    source's line loop. The model proves both render-then-parse round
    trips, and that the Completed list accumulates across
    `update_progress` calls.
  - `findings.md` is append-only.
- **Pro guards** (`src/clouvel/tools/pro.py`, module `Pro`):
  - the license key choice and its format/tier check;
  - `install_shovel`, which creates nothing on a refused license and
    creates `ERROR_LOG.md` only when it is absent;
  - `sync_commands`, which appends its integration section at most once.

Python's string operations used by the source live in module `Text`:
`strip`, `isspace`, `lower`, `in`, `split("\n")` and `"\n".join`. The
module also holds `ReadText`, the newline translation of `Path.read_text`
in text mode: `"\r\n"` and a lone `"\r"` both become `"\n"`. Module
`Wrappers` holds `Option`. Conventions used throughout:

- A file that may be missing is an `Option<string>` holding what was written to it. Every tool that reads a file sees `ReadText` of that content.
- A directory listing is a sequence of entries.
- The clock is a parameter `now`: the already formatted timestamp.
- An optional string argument, which Python treats as absent when it is `None` or `""`, is the empty string.

The round trips need preconditions that the source does not enforce. A
line holding `## 목표`, or `## 완료`, is taken as the section heading
wherever it appears. A `\n` or `\r` inside an argument splits it into
several lines when the file is read back. The lemmas' preconditions are
sufficient for reading back to give what was written; they are not exact.
For example, a last blocker that holds `## 완료` still reads back fine.

## Model

| member | source | states |
|---|---|---|
| DocGate.SearchIsRegexSearch | src/clouvel/tools/core.py:54 | The start-position scan succeeds exactly when some stretch of the name is a word of the pattern: a literal, or `a` + at most one non-newline character + `b` (the regex `.?`). |
| DocGate.CatalogFacts | src/clouvel/tools/core.py:10-16 | The catalog lists the five kinds in order, with distinct display names, all critical. |
| DocGate.FileNames | src/clouvel/tools/core.py:46 | The list is no longer than the folder listing, and each name in it is the lower-cased name of some regular-file entry. |
| DocGate.FileNamesMembership | src/clouvel/tools/core.py:46 | A name is in the file list iff some regular-file entry lower-cases to it; folders never contribute. |
| DocGate.Sieve | src/clouvel/tools/core.py:50-61 | The sieve lists at most one name per catalog entry, and every listed name belongs to an entry whose presence is the one asked for. |
| DocGate.Detected | src/clouvel/tools/core.py:50-58 | Every name in `detected` belongs to a catalog entry that some file matches. |
| DocGate.Missing | src/clouvel/tools/core.py:59-61 | Every name in `missing` belongs to a catalog entry that no file matches. |
| DocGate.SieveSplitsCatalog | src/clouvel/tools/core.py:50-61 | Every catalog entry lands in exactly one of `detected` and `missing`: in `detected` iff some file name matches one of its patterns. |
| DocGate.SieveKeepsOrder | src/clouvel/tools/core.py:50-61 | Both lists are subsequences of the catalog names, so catalog order is kept. |
| DocGate.SieveDependsOnNameSet | src/clouvel/tools/core.py:50-61 | Detection depends only on the set of file names, not on their order or repeats. |
| DocGate.ScanCatalog | src/clouvel/tools/core.py:46-61 | The triple loop with its two early breaks computes the same `detected` and `missing` as the declarative split. |
| DocGate.CanCode | src/clouvel/tools/core.py:23-107 | A missing path is BLOCKED. Otherwise the verdict is ALLOWED iff every entry is present, and then `detected` is the whole catalog. A BLOCKED verdict on an existing folder reports the folder's own `detected` and `missing` lists. Its `missing` is non-empty, with `|detected| + |missing| == 5`. |
| DocGate.AllPresentNothingMissing | src/clouvel/tools/core.py:63 | `missing` is empty iff every catalog entry is present; in that case `detected` lists all five names in catalog order. |
| DocGate.DetectedIffSomeFileMatches | src/clouvel/tools/core.py:46-58 | An entry is detected iff some lower-cased regular-file name contains, in the regex sense, one of the entry's patterns. |
| DocGate.GateDependsOnNameSet | src/clouvel/tools/core.py:139-154 | Two folders with the same set of lower-cased file names get the same `can_code` verdict and the same `analyze_docs` report. |
| DocGate.GateIgnoresOrderAndCase | src/clouvel/tools/core.py:46 | Reordering the listing, or changing the letter case of file names, does not change the verdict. |
| DocGate.AnalyzeDocs | src/clouvel/tools/core.py:133-172 | There is a report exactly when the path exists. Its lists are the folder's `detected` and `missing` names, and its coverage is taken over `detected`. |
| DocGate.Coverage | src/clouvel/tools/core.py:156-158 | Coverage is a fraction with a positive denominator and a numerator no larger. It is whole when every critical entry is detected. |
| DocGate.AnalyzeAgreesWithCanCode | src/clouvel/tools/core.py:143-154 | `analyze_docs` computes the same `detected` and `missing` lists as `can_code` on the same folder. |
| DocGate.CoverageBounds | src/clouvel/tools/core.py:156-158 | Coverage is found/total with total 5 and found equal to the number detected, at most 5. It is full iff nothing is missing. |
| DocGate.DocTemplates | src/clouvel/tools/core.py:184-190 | There are five templates, named `PRD.md`, `ARCHITECTURE.md`, `API.md`, `DATABASE.md` and `VERIFICATION.md` in that order. Each opens with a `# <project> ` title line. |
| DocGate.InitDocs | src/clouvel/tools/core.py:177-197 | What the folder held stays as a prefix of the listing. Afterwards every template name exists, and a template is reported created iff its name was free before. |
| DocGate.CreateAbsent | src/clouvel/tools/core.py:192-197 | Existing entries are kept as they are. Each created name adds exactly one entry after them. |
| DocGate.CreateAbsentSpec | src/clouvel/tools/core.py:192-197 | Afterwards every template name exists. A template is created iff its name was absent before. Each added entry is a regular file holding its own template. |
| DocGate.CreateAbsentIdempotent | src/clouvel/tools/core.py:192-197 | Running the template pass a second time creates nothing and changes no entry. |
| DocGate.CoveredCreatesNothing | src/clouvel/tools/core.py:195-197 | When every template name is taken, nothing is written or listed as created. |
| DocGate.InitDocsIdempotent | src/clouvel/tools/core.py:182-203 | A second `init_docs` reports no created files and leaves the folder as the first call left it. |
| DocGate.TemplateFilesAfterInit | src/clouvel/tools/core.py:182-197 | After `init_docs`, all five template names are regular files, provided no sub-folder already carries one of those names. |
| DocGate.TemplateNamesSatisfyCatalog | src/clouvel/tools/core.py:184-189 | The lower-cased names `prd.md`, `architecture.md`, `api.md`, `database.md` and `verification.md` satisfy all five catalog entries. |
| DocGate.InitDocsThenAllowed | src/clouvel/tools/core.py:184-197 | After `init_docs`, `can_code` on the folder is ALLOWED, unless a sub-folder already carries a template name. |
| Planning.ParseSection | src/clouvel/tools/planning.py:197-206 | The items of one section of a file: the fold of the line classifier over `text.split("\n")`. It has no contract of its own; ExtractSection and the round-trip lemmas state what it returns. |
| Planning.ExtractSection | src/clouvel/tools/planning.py:198-206 | The source's line loop collects exactly the items of the declarative fold over the classified lines. The same loop covers the Completed variant at lines 249-260. |
| Planning.GoalLines | src/clouvel/tools/planning.py:20 | The checklist has one `- [ ] g` line per goal, in input order. An empty goal list gives the single placeholder line. |
| Planning.TaskPlanText | src/clouvel/tools/planning.py:22-54 | The `task_plan.md` text as the f-string lays it out. It has no contract of its own; TaskPlanSplit and GoalsRoundTrip state what it holds. |
| Planning.TaskPlanSplit | src/clouvel/tools/planning.py:22-54 | Splitting the rendered `task_plan.md` at line breaks gives back its lines, with the goals spliced in, when no argument holds a `\n`. |
| Planning.TaskPlanReadsBack | src/clouvel/tools/planning.py:194 | When no argument holds `\n` or `\r`, reading `task_plan.md` back in text mode gives exactly the text written. |
| Planning.TaskPlanHeadScan | src/clouvel/tools/planning.py:22-35 | Whatever one-line timestamp and task the head holds, its lines leave the loop inside the goals section with nothing collected. |
| Planning.TaskPlanTailScan | src/clouvel/tools/planning.py:37-54 | The lines after the checklist close the goals section and add nothing. |
| Planning.GoalsRoundTrip | src/clouvel/tools/planning.py:194-206 | Reading `task_plan.md` back in text mode and parsing it yields exactly the rendered checklist lines, stripped, in order. This holds when the timestamp, the task and the goals have neither `\n` nor `\r`, and the goals do not contain `## 목표`. |
| Planning.GoalsRoundTripExact | src/clouvel/tools/planning.py:20 | When the goals also end in a non-space character, the goals read back are the rendered lines themselves. |
| Planning.BulletLines | src/clouvel/tools/planning.py:264-265 | A list renders as one `- x` line per item, in order, or as the single placeholder line when empty. |
| Planning.ProgressText | src/clouvel/tools/planning.py:268-299 | The `progress.md` text `update_progress` writes, as the f-string lays it out. It has no contract of its own; ProgressSplit and CompletedRoundTrip state what it holds. |
| Planning.InitProgressText | src/clouvel/tools/planning.py:74-105 | The `progress.md` text `init_planning` writes. It has no contract of its own; InitProgressIsEmptyUpdate states that it is the empty update. |
| Planning.InitProgressIsEmptyUpdate | src/clouvel/tools/planning.py:74-105 | The `progress.md` written by `init_planning` is the text `update_progress` writes with every list and entry empty. |
| Planning.ProgressSplit | src/clouvel/tools/planning.py:268-299 | Splitting the rendered `progress.md` gives back its lines, with both lists spliced in, when no argument holds a `\n`. |
| Planning.ProgressReadsBack | src/clouvel/tools/planning.py:246 | When no argument holds `\n` or `\r`, reading `progress.md` back in text mode gives exactly the text written. |
| Planning.CompletedLineKind | src/clouvel/tools/planning.py:257-260 | A `- c` line of a well-formed item yields `c` itself. |
| Planning.CompletedScan | src/clouvel/tools/planning.py:257-260 | Inside the section, the Completed list collects its items in order. The empty-list placeholder collects nothing. |
| Planning.BlockersScan | src/clouvel/tools/planning.py:252-256 | Blockers without the Completed heading never reopen the section. |
| Planning.CompletedRoundTrip | src/clouvel/tools/planning.py:246-276 | Reading the written `progress.md` back in text mode and parsing it yields exactly the Completed items written. This holds for any one-line timestamp, In Progress and Next entries, when items are well formed and blockers are one line and free of the heading. |
| Planning.ParsedItemsWellFormed | src/clouvel/tools/planning.py:246-260 | Every item parsed from any file read in text mode has neither `\n` nor `\r`, ends in a non-space, is not the placeholder and lacks the heading. So every parsed item reads back unchanged after rewriting. |
| Planning.InitPlanning | src/clouvel/tools/planning.py:13-110 | A missing path gives an error and no writes. Otherwise all three files are (over)written with their initial texts. |
| Planning.InitIsHardReset | src/clouvel/tools/planning.py:108-110 | The files `init_planning` leaves do not depend on what the files held before. |
| Planning.FindingsInitText | src/clouvel/tools/planning.py:57-71 | The `findings.md` text `init_planning` writes. It has no contract of its own; SaveFinding only ever appends to it. |
| Planning.FindingEntry | src/clouvel/tools/planning.py:144-161 | The block `save_finding` appends. It has no contract of its own; FindingEntryHeading and EmptyFieldsGetPlaceholders state its shape. |
| Planning.SaveFinding | src/clouvel/tools/planning.py:140-164 | Without `findings.md` the tool reports and writes nothing. Otherwise the old content as read in text mode is an exact prefix of the new content, and the stored content itself is one when it has no `\r`. The rest is the new block, and no other file changes. |
| Planning.FindingEntryHeading | src/clouvel/tools/planning.py:144-147 | Every appended block starts with a rule line and then the timestamped topic heading. |
| Planning.EmptyFieldsGetPlaceholders | src/clouvel/tools/planning.py:149-159 | A block saved with empty question, source and conclusion is the block saved with their placeholders `(명시되지 않음)`, `(없음)` and `(추가 조사 필요)`. |
| Planning.FindingsAppendInOrder | src/clouvel/tools/planning.py:163-164 | Two saves leave the old content, then the first block, then the second, each as read back in text mode by the next save. |
| Planning.Excerpt | src/clouvel/tools/planning.py:224 | Text of at most 500 characters is shown whole. Longer text shows its first 500 characters and then `...`. |
| Planning.RefreshGoals | src/clouvel/tools/planning.py:191-224 | It never writes. Without `task_plan.md` it reports not-initialised. Otherwise it returns the goals parsed from the file read in text mode, and the excerpt of `progress.md` as read, or of `(없음)` when that file is absent. |
| Planning.InitThenRefresh | src/clouvel/tools/planning.py:185-224 | `refresh_goals` right after `init_planning` returns the rendered checklist lines and the excerpt of the fresh progress file, for one-line timestamp, task and goals. |
| Planning.FreshProgressEmpty | src/clouvel/tools/planning.py:80-82 | A freshly initialised `progress.md`, read back, parses to an empty Completed list. |
| Planning.UpdateProgress | src/clouvel/tools/planning.py:243-301 | Without `progress.md` it reports and writes nothing. Otherwise it rewrites only `progress.md`, with Completed = the items parsed from the file as read in text mode, followed by the new ones, and counts both lists. |
| Planning.UpdateThenParse | src/clouvel/tools/planning.py:246-276 | After `update_progress`, reading the file back and parsing it gives the previous items followed by the new ones, in order and without dedup. |
| Planning.CompletedAccumulates | src/clouvel/tools/planning.py:263-264 | After `init_planning` and two updates, the Completed list is the first call's items followed by the second's. |
| Planning.LatestCallWins | src/clouvel/tools/planning.py:265-294 | After two updates, In Progress, Blockers, Next and the timestamp come from the second call only; Completed holds both calls' items. |
| Pro.ChooseKey | src/clouvel/tools/pro.py:508-512 | A non-empty explicit key is used and saved to the license file. Otherwise the saved key is read in text mode and used stripped. With neither, the key is empty. |
| Pro.CheckKey | src/clouvel/tools/pro.py:514-538 | An empty key is refused for lack of a key. A key without the `CLOUVEL-` prefix is refused as malformed. An accepted key always carries a tier among personal, team and enterprise. |
| Pro.VerifyLicense | src/clouvel/tools/pro.py:502-538 | An explicit key is checked and saved. Without one, the file is left as it was, and with no saved key the verdict is no-key. |
| Pro.SavedKeyReadBack | src/clouvel/tools/pro.py:508-512 | A keyless check after an explicit key was saved checks that key as read back and stripped, and leaves the file holding the key. |
| Pro.CleanKeySettles | src/clouvel/tools/pro.py:508-538 | For a key that reading and stripping leave unchanged, the keyless check gets the same verdict and file as the explicit one. |
| Pro.PaddedKeyAcceptedLater | src/clouvel/tools/pro.py:508-524 | ` CLOUVEL-team-x` given explicitly is refused as malformed but still saved. Read back from the file, it is accepted as a team key. |
| Pro.ShapedKeyValid | src/clouvel/tools/pro.py:526-537 | Every `CLOUVEL-<word>-<anything>`, with the word dash-free and a tier in any letter case, is accepted with the lower-cased word as tier. |
| Pro.ValidKeyShape | src/clouvel/tools/pro.py:523-537 | Every accepted key has the shape `CLOUVEL-<word>-<anything>`, and its tier is the lower-cased word. |
| Pro.TwoPartKeyMalformed | src/clouvel/tools/pro.py:526-528 | `CLOUVEL-<word>` without a further dash has fewer than three parts and is refused as malformed. |
| Pro.UnknownTierRefused | src/clouvel/tools/pro.py:530-532 | A well-shaped key whose second part is no tier is refused as an unknown tier. |
| Pro.EmptyTailAccepted | src/clouvel/tools/pro.py:530-537 | Parts after the second are never inspected: `CLOUVEL-Team-` is a valid team key. |
| Pro.RefusedKeyStillSaved | src/clouvel/tools/pro.py:508-524 | An explicit key is written to the license file even when it is then refused. |
| Pro.InstallShovel | src/clouvel/tools/pro.py:559-632 | A refused license leaves the project tree untouched. An accepted one reports the tier the license check found, creates the `.claude` directories and writes the fixed files. It adds no file beyond those and `ERROR_LOG.md`. `ERROR_LOG.md` is created iff neither a file nor a directory of that name exists. An existing file is kept verbatim, and a directory of that name gets no file. Other files are unchanged. |
| Pro.ReinstallKeepsErrorLog | src/clouvel/tools/pro.py:622-632 | Installing a second time, with any key then accepted, leaves the tree as the first install left it and reports no new error log. |
| Pro.IntegrationSection | src/clouvel/tools/pro.py:721-740 | The section starts with a blank line and the heading on a line of its own, and has no `\r`. |
| Pro.SyncCommands | src/clouvel/tools/pro.py:687-741 | Without a `.claude` entry, file or directory, nothing changes. Otherwise a `CLAUDE.md` whose text-mode content lacks the heading is rewritten as that content plus the section. The old content, as read, stays a prefix, and so does the stored content when it has no `\r`. The file then holds the heading. A `CLAUDE.md` that already had the heading stays untouched, and no other file changes. |
| Pro.SectionHasHeading | src/clouvel/tools/pro.py:721-740 | Appending the integration section puts its heading into the file. |
| Pro.SyncIdempotent | src/clouvel/tools/pro.py:717-741 | A second `sync_commands` leaves the tree as the first one left it: the file it wrote reads back with the heading. |
| Text.ReadText | src/clouvel/tools/planning.py:194-195 | Reading in text mode leaves no `\r`, never lengthens the text, and leaves text without `\r` as it is. |
| Text.ReadTextAfterClean | src/clouvel/tools/planning.py:163-164 | A prefix without `\r` is read back as it is, so rewriting read content and appending keeps that content. |
| Text.ReturnEndsLine | src/clouvel/tools/planning.py:246-249 | A lone `\r` and a `\r\n` both read back as one `\n`, so they split a line as `\n` does. |

## Left out

- Messages: the markdown of every reply. Replies are modelled as a small datatype carrying the decision and the counts only.
- Filesystem, encodings and `mkdir`: files are values. Each tool runs as one atomic step, with no I/O errors and no concurrent writers.
- `scan_docs` (core.py:110-129): it only lists file sizes, which is I/O formatting.
- `activate_license` (pro.py:773 onwards): it is outside the guards modelled here.
- Static text: the bodies of `SHOVEL_SETTINGS`, `SHOVEL_COMMANDS`, `SHOVEL_TEMPLATES` and `GATE_SCRIPT` are static blobs. `InstallShovel` takes what they write as the parameter `fixed`.
- Unused arguments: `install_shovel`'s `project_type` and `sync_commands`' `mode` affect nothing the source writes, so they are not parameters.
- The `mapping` listing of `sync_commands` only feeds the reply text.
- The coverage percentage: it is kept as the numerator/denominator pair, not as a float formatted with `:.0%`.
- Lower: lower-cases ASCII letters only. Python's `str.lower()` also folds non-ASCII letters; the catalog patterns and template names are ASCII.
- Search: models only the two pattern shapes the catalog uses, a literal and `a.?b`, not a general regex engine. It drops `re.IGNORECASE`. That is sound for ASCII names, which lower-casing has already folded. It is not sound for all names: IGNORECASE also equates `i` with `ı` (U+0131) and `s` with `ſ` (U+017F), which `str.lower()` leaves as they are. So a file named `apı.md` or `ſchema.md` is detected by the source and missing in the model.
- CreateAbsent: `Path.exists()` is modelled as an exact name match. A case-insensitive filesystem would also see differently-cased names.
- InstallShovel: reports the tier and whether `ERROR_LOG.md` was created. It does not report the list of created paths, which depends on the static blobs' key order. A `.claude` (pro.py:586) or `scripts` (pro.py:617) that exists as a regular file makes the source's `mkdir(..., exist_ok=True)` raise. The model still reports Installed, and the name then appears among both directories and files.
- RefreshGoals: returns the parsed goal list and the excerpt, not the rendered reminder text. The `*(목표 없음)*` placeholder used when no goal is found is part of that text.
- InitPlanning: uses one `now` for the three clock reads. The source reads the clock once per file, so they could differ across a minute boundary.
- SyncCommands: a directory named `CLAUDE.md` makes the source's `read_text` raise. The model sees only regular files under that name and leaves such a directory alone.
- VerifyLicense: a directory at the license path makes the source's `read_text` raise. The model's license file is a string or nothing.
- TaskPlanHeadScan: speaks of the head as the lines written. A timestamp or task holding `\n` or `\r` reads back as more lines, and this lemma does not cover them; GoalsRoundTrip requires both to be one line.
- GoalsRoundTripExact: like GoalsRoundTrip, it promises nothing for a goal, task or timestamp holding `\n` or `\r`. Reading such text back breaks the line, and the source then parses different goals.
- InitThenRefresh: like GoalsRoundTrip, it promises nothing unless the timestamp, task and goals are one line each.
- UpdateThenParse: every string argument must be one line. A `\r` or `\n` in an item, blocker, In Progress or Next entry reads back as a line break, so the next `update_progress` parses different Completed items.
- CompletedAccumulates: the same limit as UpdateThenParse, for both updates.
- LatestCallWins: the same limit for the first update. For example, an In Progress entry `x\r## 완료\r- y` makes the second update add `y` to Completed.
- ParsedItemsWellFormed: its promise is about items parsed from a file read in text mode. Items taken from the stored string without the translation could still hold `\r`.
- SaveFinding: old content holding `\r` is rewritten with its line breaks translated. Only the text as read, not the stored text, is kept as a prefix in that case.
- UpdateProgress: rewrites `progress.md` from what reading gave, so a stored `\r\n` becomes `\n` in the rewritten file.
