# Naming layer of the long-read correction pipeline

The Snakemake file `src/snk_canupipe.py` corrects PacBio long reads with
Illumina short reads and can then assemble them with canu. Almost all of its
work is done by external programs. The only logic it computes itself is
naming:

- it derives a **prefix** from the long-read path (`PFASTA`);
- it builds the list of **work units** `SUBSAM`, one name
  `prefix.NNN` for each of the `numJobs = 101` pieces;
- it builds the **path templates** that link the rules: split pieces,
  corrected pieces, merge inputs, the merged file and the assembly output;
- it recovers the unit name from a corrected path with `basename … _iter2.fasta`;
- it chooses **colormap or proovread** from the `fix` setting.

This project models that layer in Dafny and proves what the merge stage
depends on:

- the unit names are distinct;
- there is exactly one name per index, and the names sort in index order;
- every unit round-trips through the path templates;
- position `k` of the split outputs, of the jobs and of the merge inputs all
  refer to unit `k`.

The four files are:

- `text_order.dfy` (module `TextOrder`): Python's `<` on `str`, which is
  lexicographic by code point.
- `decimal.dfy` (module `Decimal`): `str(n)` for `n >= 0`, `str.zfill`, the
  value a digit string denotes, and `lstrip("0")`.
- `path_text.dfy` (module `PathText`): `str.rfind`, `os.path.basename`,
  `str.split(".")[0]`, `os.path.join`, the shell's `basename NAME SUFFIX`,
  and which texts the shell passes on unchanged.
- `canupipe.dfy` (module `CanuPipe`): the prefix, the unit list, the path
  templates, the correction job of each unit, and the whole resolved plan
  (`PlanFor`).

The unit list is built by a module-level loop in the source. It is modelled
as the method `BuildUnits`, which has a `for` loop whose invariant ties the
growing list to `UnitList`. Everything else in the source is a single
expression, so it is modelled as a function.

The script performs none of these checks, and the model claims none of
them:

- No unit count or empty prefix is rejected. A `PFASTA` ending in `/`, or
  one whose last component starts with `.`, gives the prefix `""` and units
  `.000`, `.001`, …
- The number of files the splitter writes is never checked against
  `numJobs`.
- Nothing is published atomically.

The correction rule's shell command pastes the corrected path into
`basename` without quotes, and pastes the `fix` setting inside double
quotes. The model therefore records `bn` only when that path is one plain
shell word, and the corrector only when the setting has nothing for the
shell to expand inside double quotes. A prefix such as `my reads` or
`-r` leaves `bn` open (`None`).

## Model

| member | source | states |
|---|---|---|
| `CanuPipe.Prefix` | src/snk_canupipe.py:57 | the prefix is the last path component up to its first `.`: a leading part of `basename(PFASTA)` that is either all of it or followed by `.`, and it contains neither `.` nor `/` |
| `PathText.Basename` | src/snk_canupipe.py:57 | `os.path.basename` returns a slash-free ending of the path that is either the whole path or preceded by `/`, i.e. the text after the last `/` |
| `PathText.BeforeFirstDot` | src/snk_canupipe.py:57 | `split(".")[0]` returns a dot-free leading part of the string, followed by `.` unless it is the whole string; it never fails |
| `Decimal.Str` | src/snk_canupipe.py:59 | `str(i)` is at least one digit; it is a single digit exactly when `i < 10`, and it starts with `0` exactly when `i` is zero, so `str(0)` is `"0"` |
| `Decimal.ValueOfStr` | src/snk_canupipe.py:59 | reading `str(n)` back as a number gives `n` |
| `Decimal.ZFill` | src/snk_canupipe.py:59 | `zfill(w)` has length `max(len, w)`, so it pads and never truncates; the original text is kept at the end (after a leading sign, if any) and the added characters are `0` |
| `Decimal.PaddedIndexDecodes` | src/snk_canupipe.py:58-59 | `str(i).zfill(w)` is all digits and reads back as `i`; with its leading zeros stripped it is `str(i)` again (`""` for 0) |
| `Decimal.EqualWidthOrder` | src/snk_canupipe.py:58-59 | of two digit strings of equal width, the one with the smaller value sorts first as Python compares strings |
| `Decimal.EqualValueSameWidth` | src/snk_canupipe.py:58-59 | two digit strings of equal width and equal value are the same string |
| `Decimal.EqualWidthOrderIff` | src/snk_canupipe.py:58-59 | for digit strings of equal width, `a < b` as strings holds exactly when `int(a) < int(b)`, in both directions |
| `CanuPipe.IndexText` | src/snk_canupipe.py:59 | computes `str(i).zfill(3)`; what it promises is stated by `IndexTextShape` |
| `CanuPipe.UnitName` | src/snk_canupipe.py:59 | computes `prefix + "." + str(i).zfill(3)`; what it promises is stated by `UnitNameShape`, `UnitNameInjective` and `UnitNamesAscending` |
| `CanuPipe.IndexTextShape` | src/snk_canupipe.py:59 | the padded index is all digits, reads back as `i`, has at least 3 digits, and has exactly 3 when `i < 1000` |
| `CanuPipe.UnitNameShape` | src/snk_canupipe.py:59 | unit `i` is the prefix, then `.`, then digits that read back as `i`; it has no `/` when the prefix has none |
| `CanuPipe.UnitNameInjective` | src/snk_canupipe.py:58-59 | distinct indices give distinct unit names |
| `CanuPipe.UnitNamesAscending` | src/snk_canupipe.py:42-59 | for `i < j < 1000`, unit `i` sorts strictly before unit `j` |
| `CanuPipe.UnitOrderBreaksAtFourDigits` | src/snk_canupipe.py:58-59 | once the index reaches four digits, index order and name order part ways: unit 1000 sorts before unit 999 |
| `CanuPipe.UnitList` | src/snk_canupipe.py:56-59 | the list after `n` appends; what it promises is stated by `UnitListAt`, `UnitListDistinct` and `UnitListAscending`, and `BuildUnits` is proved to compute it |
| `CanuPipe.UnitListAt` | src/snk_canupipe.py:56-59 | after `n` appends the list has exactly `n` entries, and entry `i` is unit `i` |
| `CanuPipe.UnitListDistinct` | src/snk_canupipe.py:56-59 | the unit list has no repeated name |
| `CanuPipe.UnitListAscending` | src/snk_canupipe.py:42-59 | for at most 1000 jobs (101 here), the unit list is strictly ascending as Python compares strings |
| `CanuPipe.UnitListPathSafe` | src/snk_canupipe.py:57-59 | every unit name is non-empty and has no `/` |
| `CanuPipe.UnitNamePlain` | src/snk_canupipe.py:57-59 | unit `i` has no shell-special character when the prefix has none |
| `CanuPipe.UnitListPlain` | src/snk_canupipe.py:57-59 | a unit name adds only `.` and digits to the prefix, so it has no shell-special character unless the prefix has one |
| `CanuPipe.BuildUnits` | src/snk_canupipe.py:56-59 | the loop returns the prefix of `PFASTA` and a list of `numJobs` entries where entry `i` is unit `i`; the list is distinct, and strictly ascending when `numJobs <= 1000` |
| `CanuPipe.Expand` | src/snk_canupipe.py:104 | `expand` over the unit list gives one path per unit in list order, and position `k` is the template filled with unit `k` |
| `CanuPipe.SplitOutputs` | src/snk_canupipe.py:75 | `expand(prefix+'_trim/{sample}.fasta', sample=SUBSAM)`; through `Expand`, position `k` is unit `k`'s split piece |
| `CanuPipe.MergeInputs` | src/snk_canupipe.py:104 | `expand(prefix+"_corrected/{sample2}_iter2.fasta", sample2=SUBSAM)`; through `Expand`, position `k` is unit `k`'s corrected piece |
| `CanuPipe.SplitDir` | src/snk_canupipe.py:76-87 | the trim directory `prefix_trim/`: the splitter's `datab` output, `FASTA_DIR2`, and the correction rule's `datab` input; `StageDirsHoldPieces` proves every split output lies inside it |
| `CanuPipe.CorrectedDir` | src/snk_canupipe.py:90-104 | the directory `prefix_corrected/`; `StageDirsHoldPieces` proves every corrected piece lies inside it |
| `CanuPipe.StageDirsHoldPieces` | src/snk_canupipe.py:75-104 | every split output lies inside `prefix_trim/`, and every corrected piece inside `prefix_corrected/` |
| `CanuPipe.SplitPath` | src/snk_canupipe.py:75 | the split-piece template `prefix_trim/u.fasta`; `SplitPathRoundTrip` proves it gives its unit back |
| `CanuPipe.CorrectedPath` | src/snk_canupipe.py:90 | the corrected-piece template `prefix_corrected/u_iter2.fasta`; `CorrectedPathRoundTrip` proves it gives its unit back, and `MergedOutputIsNotAnInput` that it is never the merged file |
| `CanuPipe.MergedOutput` | src/snk_canupipe.py:106 | the merged file `prefix_corrected.fasta`, also the default target (line 67) and the assembly input (line 113); `MergeInputsDisjoint` and `PlanWiring` state its relations |
| `CanuPipe.AssemblyDir` | src/snk_canupipe.py:116 | the assembly directory `prefix_assembly/`; `AssemblyOutputsApart` states its relation to the contigs file |
| `CanuPipe.AssemblyContigs` | src/snk_canupipe.py:115 | the contigs file `prefix_assembly/res.contigs.fasta`; `AssemblyOutputsApart` states where it lies |
| `CanuPipe.AssemblyOutputsApart` | src/snk_canupipe.py:113-118 | the contigs file lies inside the assembly directory that canu writes into (`-d`), and neither the merged file nor any merge input nor any split output lies inside that directory, so the files of earlier stages are kept apart from canu's output tree |
| `PathText.Join` | src/snk_canupipe.py:86 | `os.path.join` of two components; what it promises is stated by `JoinShape` |
| `PathText.JoinShape` | src/snk_canupipe.py:86 | `join(a, b)` ends with `b`, and an absolute `b` replaces `a`. Otherwise the result starts with `a` and at most one `/` is inserted, so `a` and `b` are separated by a `/` unless `a` is empty. When `a` is empty or already ends in `/` (the case of `FASTA_DIR2`), the result is exactly `a + b` |
| `PathText.DropSuffix` | src/snk_canupipe.py:94 | `basename`'s suffix removal either leaves the name unchanged or removes a non-empty suffix and leaves a non-empty stem |
| `PathText.ShellBasename` | src/snk_canupipe.py:94 | `basename PATH SUFFIX` for a single path argument; `ShellBasenameStripsSuffix` states when it gives the stem back |
| `CanuPipe.SplitPathRoundTrip` | src/snk_canupipe.py:75 | a split piece `prefix_trim/u.fasta` names its unit `u` again under `basename … .fasta` |
| `PathText.ShellBasenameStripsSuffix` | src/snk_canupipe.py:94 | `basename DIR/STEM SUFFIX` returns `STEM` when `STEM` is non-empty and neither `STEM` nor `SUFFIX` contains `/` |
| `CanuPipe.CorrectedPathRoundTrip` | src/snk_canupipe.py:90-94 | given the corrected path as its one argument, `basename prefix_corrected/u_iter2.fasta _iter2.fasta` returns `u` |
| `CanuPipe.CorrectedPathShellWord` | src/snk_canupipe.py:94 | the unquoted corrected path is one plain shell word (no splitting, expansion or option reading) exactly when the prefix is safe for the shell and the unit has only plain characters |
| `CanuPipe.SelectCorrector` | src/snk_canupipe.py:95-98 | the corrector is colormap exactly when the tested text equals `"colormap"`; every other text gives proovread |
| `CanuPipe.ToolFor` | src/snk_canupipe.py:95-98 | the job runs colormap exactly when the setting is `"colormap"`, and proovread exactly when the setting is some other text with no `"`, `` ` ``, `$` or `\`; otherwise the outcome is left open (`None`) |
| `CanuPipe.CorrectionFor` | src/snk_canupipe.py:84-98 | one correction job for one unit; `CorrectionJobWiring` states what it reads, writes, names and runs |
| `CanuPipe.JobUnitName` | src/snk_canupipe.py:90-94 | the job's `bn` is the unit exactly when the prefix is safe for the shell and the unit is plain text; otherwise it is left open |
| `CanuPipe.CorrectionJobWiring` | src/snk_canupipe.py:84-98 | a unit's correction job reads that unit's split piece (`join` of the trim directory and `u.fasta`), reads the configured short-read file, and writes that unit's corrected piece; it passes `bn = u` when the corrected path is one plain shell word, and it runs the corrector the setting selects |
| `CanuPipe.CorrectionJobs` | src/snk_canupipe.py:84-98 | one correction job per unit, in unit-list order; what the jobs promise is stated by `CorrectionJobWiring` (each job) and `StagesAligned` (job `k` reads split output `k` and writes merge input `k`) |
| `CanuPipe.StagesAligned` | src/snk_canupipe.py:71-104 | the split outputs, the correction jobs and the merge inputs have one entry per unit; at position `k`, all three belong to unit `k`, and job `k` passes `bn = units[k]` whenever its path is one plain shell word |
| `CanuPipe.MergedOutputIsNotAnInput` | src/snk_canupipe.py:104-106 | `prefix_corrected.fasta` differs from every `prefix_corrected/u_iter2.fasta` |
| `CanuPipe.MergeInputsDisjoint` | src/snk_canupipe.py:102-106 | distinct units have distinct corrected files, so no two jobs write the same path, and the merged output is none of the merge inputs |
| `CanuPipe.PlanFor` | src/snk_canupipe.py:56-119 | every file name the rules use, resolved for one configuration; `PlanWiring` states how they fit together |
| `CanuPipe.UnitJobNames` | src/snk_canupipe.py:56-94 | over a whole unit list, every job's `bn` is its unit exactly when the prefix is safe for the shell |
| `CanuPipe.PlanUnitNames` | src/snk_canupipe.py:56-94 | in the resolved plan, job `k` passes `bn = units[k]` when the prefix is safe for the shell, and leaves `bn` open otherwise |
| `CanuPipe.PlanDirs` | src/snk_canupipe.py:73-118 | in the resolved plan, every split output lies in the split directory, and the contigs file lies in the assembly directory; no merged file, merge input or split output lies there |
| `CanuPipe.PlanWiring` | src/snk_canupipe.py:64-116 | for any configuration, the resolved plan has: 101 units, distinct and ascending; split outputs, jobs and merge inputs aligned by unit index; `bn` equal to the unit whenever the prefix is safe for the shell; distinct merge inputs that exclude the merged file; and a merged file that is both the default target and the assembly input |

## Left out

- Every shell command runs an external program whose behaviour is not part of this model: `pyfasta split` and `mv`, colormap, proovread, `cat` and canu. The model stops at the names handed to them. `cat` reads the merge inputs in list order, and `StagesAligned` pins that order to the unit index, but the concatenation itself is not modelled.
- Snakemake itself is not modelled: the `config[...]` lookup (taken as the `Config` value), `glob_wildcards` (`SAMPLES` is never used), rule scheduling and cluster submission. Wildcard inference is assumed to bind `sample2` to the unit whose corrected file the merge asks for. `expand` is modelled only in the one-wildcard form the file uses (`Expand`).
- `CorrectionJobWiring`: `join(FASTA_DIR2, PATTERN2)` is evaluated on the pattern text, before the wildcard is filled in. The model joins the trim directory with the filled-in `u.fasta`. The two agree for every unit that does not start with `/`, which covers every unit of the list.
- The proovread branch writes `$bn_iter2`, which the shell reads as a variable named `bn_iter2`. This quirk is inside an external call and is not modelled. The job records `bn` and the selected corrector only.
- The hard-coded tool locations and resource numbers are constants with no behaviour and are not modelled: the thread counts 8 and 24, the coverage 100, `genomeSize` and the grid options.
- `UnitListAscending`, `BuildUnits`: ascending order is proved only when `numJobs <= 1000`. Past that bound the order fails, as `UnitOrderBreaksAtFourDigits` shows. Distinctness is proved for every `numJobs`.
- `CorrectedPathRoundTrip`, `JobUnitName`, `CorrectionJobWiring`, `StagesAligned`, `UnitJobNames`, `PlanUnitNames`, `PlanWiring`: `bn` is claimed to equal the unit only when the corrected path is one plain shell word. Plain here means made of letters, digits, `.`, `_`, `-` and `/`, and not starting with `-`. For any other prefix the shell may split the path, glob it or read it as an option. What `basename` then prints is left open (`None`), even for characters that happen to be harmless.
- `ToolFor`, `CorrectionJobWiring`: `"{params.algorithm}"` is expanded by the shell inside its double quotes. For a setting containing `"`, `` ` ``, `$` or `\`, the text the test compares is left open (`None`). The comparison uses `==` inside `[ ]`, which assumes Snakemake runs the command with bash.
- `Expand`, `SplitOutputs`, `MergeInputs`, `PlanFor`, `PlanWiring`: the prefix is taken as literal text. Snakemake reads `{` and `}` in a rule's file names as wildcard syntax, and `expand` formats the whole template, prefix included. So for a prefix containing a brace, the source either fails to load (for example, a wildcard with no value) or turns a doubled brace into a single one. The model resolves such names literally.
