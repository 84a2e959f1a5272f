/** The naming layer of the long-read correction pipeline: the prefix taken
    from the long-read path, the list of work units (sub-samples) the
    splitter, the corrector and the merge all refer to, the file-path
    templates of each rule, and the choice of corrector. */
module CanuPipe {
  import opened TextOrder
  import opened Decimal
  import opened PathText

  /** Number of pieces the long-read file is split into. */
  const NumJobs: nat := 101
  /** Width the unit index is zero-padded to. */
  const IndexWidth: nat := 3

  const TrimDirSuffix := "_trim/"
  const CorrectedDirSuffix := "_corrected/"
  const FastaSuffix := ".fasta"
  const Iter2Suffix := "_iter2.fasta"

  /** The three configuration values the script reads: the long-read
      (PacBio) path, the short-read (Illumina) path and the corrector. */
  datatype Config = Config(pfasta: string, ifasta: string, fix: string)

  // ---------------------------------------------------------------------
  // Prefix and work units

  /** `basename(PFASTA).split(".")[0]`: the last path component up to its
      first '.', so it holds neither '.' nor '/'. */
  function Prefix(pfasta: string): (prefix: string)
    ensures '/' !in prefix && '.' !in prefix
    ensures var name := Basename(pfasta);
      |prefix| <= |name| && name[..|prefix|] == prefix &&
      (|prefix| == |name| || name[|prefix|] == '.')
  {
    BeforeFirstDot(Basename(pfasta))
  }

  /** `str(i).zfill(3)`. */
  function IndexText(i: nat): string
  {
    ZFill(Str(i), IndexWidth)
  }

  /** Name of work unit `i`: the prefix, a '.', then the padded index. */
  function UnitName(prefix: string, i: nat): string
  {
    prefix + "." + IndexText(i)
  }

  /** The padded index is digits only, at least three of them and exactly
      three below 1000, and they read back as `i`. */
  lemma IndexTextShape(i: nat)
    ensures AllDigits(IndexText(i)) && Value(IndexText(i)) == i
    ensures |IndexText(i)| >= IndexWidth
    ensures i < Pow10(IndexWidth) ==> |IndexText(i)| == IndexWidth
  {
    PaddedIndexDecodes(i, IndexWidth);
    StrLength(i, IndexWidth);
  }

  /** A unit name is the prefix, a '.', and digits that read back as the
      unit's index; without a '/' in the prefix it has none either. */
  lemma UnitNameShape(prefix: string, i: nat)
    ensures var u := UnitName(prefix, i);
      && |u| > |prefix| + 1 && u[..|prefix|] == prefix && u[|prefix|] == '.'
      && AllDigits(u[|prefix| + 1..]) && Value(u[|prefix| + 1..]) == i
      && ('/' !in prefix ==> '/' !in u)
  {
    IndexTextShape(i);
    var s := IndexText(i);
    var u := prefix + "." + s;
    assert u[|prefix| + 1..] == s;
  }

  /** The unit list after `n` turns of the appending loop. */
  function UnitList(prefix: string, n: nat): seq<string>
  {
    if n == 0 then [] else UnitList(prefix, n - 1) + [UnitName(prefix, n - 1)]
  }

  predicate Distinct(s: seq<string>)
  {
    forall i, j :: 0 <= i < j < |s| ==> s[i] != s[j]
  }

  predicate StrictlyAscending(s: seq<string>)
  {
    forall i, j :: 0 <= i < j < |s| ==> LexLess(s[i], s[j])
  }

  /** The list has one entry per index, and entry `i` is unit `i`. */
  lemma {:induction false} UnitListAt(prefix: string, n: nat)
    ensures |UnitList(prefix, n)| == n
    ensures forall i :: 0 <= i < n ==> UnitList(prefix, n)[i] == UnitName(prefix, i)
  {
    if n > 0 {
      var before := UnitList(prefix, n - 1);
      UnitListAt(prefix, n - 1);
      assert UnitList(prefix, n) == before + [UnitName(prefix, n - 1)];
      forall i | 0 <= i < n - 1 ensures UnitList(prefix, n)[i] == UnitName(prefix, i) {
        assert (before + [UnitName(prefix, n - 1)])[i] == before[i];
      }
    }
  }

  /** The padded index can be read back out of a unit name, so distinct
      indices never share a name. */
  lemma UnitNameInjective(prefix: string, i: nat, j: nat)
    requires i != j
    ensures UnitName(prefix, i) != UnitName(prefix, j)
  {
    var u, v := UnitName(prefix, i), UnitName(prefix, j);
    UnitNameShape(prefix, i);
    UnitNameShape(prefix, j);
    assert Value(u[|prefix| + 1..]) != Value(v[|prefix| + 1..]);
  }

  /** Below 1000 every index has three digits, so the names sort in index
      order. */
  lemma UnitNamesAscending(prefix: string, i: nat, j: nat)
    requires i < j < Pow10(IndexWidth)
    ensures LexLess(UnitName(prefix, i), UnitName(prefix, j))
  {
    IndexTextShape(i);
    IndexTextShape(j);
    EqualWidthOrder(IndexText(i), IndexText(j));
    LexLessCommonPrefix(prefix + ".", IndexText(i), IndexText(j));
  }

  /** Past 999 the index outgrows its padding and the order breaks: unit
      1000 sorts before unit 999. */
  lemma UnitOrderBreaksAtFourDigits(prefix: string)
    ensures LexLess(UnitName(prefix, 1000), UnitName(prefix, 999))
  {
    assert Str(1000) == "1000" by {
      assert Str(1) == "1";
      assert Str(10) == Str(1) + "0";
      assert Str(100) == Str(10) + "0";
    }
    assert Str(999) == "999" by {
      assert Str(99) == Str(9) + "9";
    }
    LexLessCommonPrefix(prefix + ".", "1000", "999");
  }

  lemma UnitListDistinct(prefix: string, n: nat)
    ensures Distinct(UnitList(prefix, n))
  {
    UnitListAt(prefix, n);
    var units := UnitList(prefix, n);
    forall i, j | 0 <= i < j < |units| ensures units[i] != units[j] {
      UnitNameInjective(prefix, i, j);
    }
  }

  lemma UnitListAscending(prefix: string, n: nat)
    requires n <= Pow10(IndexWidth)
    ensures StrictlyAscending(UnitList(prefix, n))
  {
    UnitListAt(prefix, n);
    var units := UnitList(prefix, n);
    forall i, j | 0 <= i < j < |units| ensures LexLess(units[i], units[j]) {
      UnitNamesAscending(prefix, i, j);
    }
  }

  /** Build the prefix and the list of work units (SUBSAM) by appending one
      name per index. The list has `numJobs` entries, entry `i` is unit `i`,
      no name repeats, and for at most 1000 jobs it is sorted. */
  method BuildUnits(pfasta: string, numJobs: nat) returns (prefix: string, subsam: seq<string>)
    ensures prefix == Prefix(pfasta)
    ensures subsam == UnitList(prefix, numJobs)
    ensures |subsam| == numJobs
    ensures forall i :: 0 <= i < numJobs ==> subsam[i] == UnitName(prefix, i)
    ensures Distinct(subsam)
    ensures numJobs <= Pow10(IndexWidth) ==> StrictlyAscending(subsam)
  {
    subsam := [];
    prefix := BeforeFirstDot(Basename(pfasta));
    for i := 0 to numJobs
      invariant subsam == UnitList(prefix, i)
    {
      subsam := subsam + [prefix + "." + ZFill(Str(i), IndexWidth)];
    }
    UnitListAt(prefix, numJobs);
    UnitListDistinct(prefix, numJobs);
    if numJobs <= Pow10(IndexWidth) {
      UnitListAscending(prefix, numJobs);
    }
  }

  // ---------------------------------------------------------------------
  // Path templates

  /** Directory the split pieces are moved into. */
  function SplitDir(prefix: string): string { prefix + TrimDirSuffix }

  /** One split piece: `prefix_trim/{sample}.fasta`. */
  function SplitPath(prefix: string, unit: string): string { SplitDir(prefix) + unit + FastaSuffix }

  function CorrectedDir(prefix: string): string { prefix + CorrectedDirSuffix }

  /** One corrected piece: `prefix_corrected/{sample2}_iter2.fasta`. */
  function CorrectedPath(prefix: string, unit: string): string { CorrectedDir(prefix) + unit + Iter2Suffix }

  /** The merged corrected reads, also the default target. */
  function MergedOutput(prefix: string): string { prefix + "_corrected.fasta" }

  function AssemblyDir(prefix: string): string { prefix + "_assembly/" }

  function AssemblyContigs(prefix: string): string { AssemblyDir(prefix) + "res.contigs.fasta" }

  /** `expand(dir + "{w}" + suffix, w=units)`: one path per unit, in the
      order of the unit list. */
  function Expand(dir: string, suffix: string, units: seq<string>): (paths: seq<string>)
    ensures |paths| == |units|
    ensures forall k :: 0 <= k < |units| ==> paths[k] == dir + units[k] + suffix
  {
    if units == [] then [] else [dir + units[0] + suffix] + Expand(dir, suffix, units[1..])
  }

  /** Outputs of the split rule. */
  function SplitOutputs(prefix: string, units: seq<string>): seq<string>
  {
    Expand(SplitDir(prefix), FastaSuffix, units)
  }

  /** Inputs of the merge rule, concatenated in this order. */
  function MergeInputs(prefix: string, units: seq<string>): seq<string>
  {
    Expand(CorrectedDir(prefix), Iter2Suffix, units)
  }

  /** `basename {output.files} _iter2.fasta` recovers the unit from its
      corrected path. */
  lemma CorrectedPathRoundTrip(prefix: string, unit: string)
    requires unit != [] && '/' !in unit
    ensures ShellBasename(CorrectedPath(prefix, unit), Iter2Suffix) == unit
  {
    ShellBasenameStripsSuffix(CorrectedDir(prefix), unit, Iter2Suffix);
  }

  /** Likewise a split piece names its unit. */
  lemma SplitPathRoundTrip(prefix: string, unit: string)
    requires unit != [] && '/' !in unit
    ensures ShellBasename(SplitPath(prefix, unit), FastaSuffix) == unit
  {
    ShellBasenameStripsSuffix(SplitDir(prefix), unit, FastaSuffix);
  }

  /** The merged file is never one of the merge's own inputs. */
  lemma MergedOutputIsNotAnInput(prefix: string, unit: string)
    ensures MergedOutput(prefix) != CorrectedPath(prefix, unit)
  {
    assert MergedOutput(prefix)[|prefix| + 10] == '.';
    assert CorrectedPath(prefix, unit)[|prefix| + 10] == '/';
  }

  /** The assembly's contigs file lies inside the assembly directory, where
      canu writes its whole output tree, and no file the split, correction
      and merge stages write lies there; in particular the contigs file is
      none of them. */
  lemma AssemblyOutputsApart(prefix: string, units: seq<string>)
    ensures var dir, contigs := AssemblyDir(prefix), AssemblyContigs(prefix);
      var merge, split := MergeInputs(prefix, units), SplitOutputs(prefix, units);
      && |dir| < |contigs| && IsUnder(contigs, dir) && dir[|dir| - 1] == '/'
      && !IsUnder(MergedOutput(prefix), dir)
      && (forall k :: 0 <= k < |merge| ==> !IsUnder(merge[k], dir))
      && (forall k :: 0 <= k < |split| ==> !IsUnder(split[k], dir))
      && contigs != MergedOutput(prefix)
      && contigs !in merge
      && contigs !in split
  {
    var dir, contigs := AssemblyDir(prefix), AssemblyContigs(prefix);
    var at := |prefix| + 1;
    assert dir[at] == 'a';
    assert MergedOutput(prefix)[at] == 'c';
    var merge, split := MergeInputs(prefix, units), SplitOutputs(prefix, units);
    forall k | 0 <= k < |units|
      ensures !IsUnder(merge[k], dir) && !IsUnder(split[k], dir)
      ensures merge[k] != contigs && split[k] != contigs
    {
      assert merge[k][at] == 'c';
      assert split[k][at] == 't';
    }
  }

  /** Each stage's pieces lie inside that stage's directory: every split
      output inside `prefix_trim/` (the splitter's `datab` output and the
      correction rule's `datab` input), every corrected piece inside
      `prefix_corrected/`. */
  lemma StageDirsHoldPieces(prefix: string, units: seq<string>)
    ensures var split, merge := SplitOutputs(prefix, units), MergeInputs(prefix, units);
      && (forall k :: 0 <= k < |split| ==> IsUnder(split[k], SplitDir(prefix)))
      && (forall k :: 0 <= k < |merge| ==> IsUnder(merge[k], CorrectedDir(prefix)))
  {
    var split, merge := SplitOutputs(prefix, units), MergeInputs(prefix, units);
    forall k | 0 <= k < |units|
      ensures IsUnder(split[k], SplitDir(prefix)) && IsUnder(merge[k], CorrectedDir(prefix))
    {
      assert split[k] == SplitDir(prefix) + (units[k] + FastaSuffix);
      assert merge[k] == CorrectedDir(prefix) + (units[k] + Iter2Suffix);
    }
  }

  // ---------------------------------------------------------------------
  // Correction

  datatype Corrector = Colormap | Proovread

  datatype Option<T> = None | Some(value: T)

  /** The shell test `[ "{params.algorithm}" == "colormap" ]`. */
  function SelectCorrector(algorithm: string): (c: Corrector)
    ensures c == Colormap <==> algorithm == "colormap"
    ensures c == Proovread <==> algorithm != "colormap"
  {
    if algorithm == "colormap" then Colormap else Proovread
  }

  /** One instance of the correction rule: where it reads, where it
      writes, the unit name `bn` it hands to the corrector, and which
      corrector runs. The shell command is text with the paths pasted in
      unquoted, and the setting pasted inside double quotes; `unitName` is
      `None` when the output path is not one plain shell word, and `tool`
      is `None` when the setting is not inert inside double quotes: in
      those cases the shell's word splitting, globbing, option parsing or
      expansion decide the outcome, which the model leaves open. */
  datatype CorrectionJob = CorrectionJob(
    longReads: string,
    shortReads: string,
    output: string,
    unitName: Option<string>,
    tool: Option<Corrector>)

  function CorrectionFor(cfg: Config, prefix: string, unit: string): CorrectionJob
  {
    var output := CorrectedPath(prefix, unit);
    CorrectionJob(
      Join(SplitDir(prefix), unit + FastaSuffix),
      cfg.ifasta,
      output,
      if ShellWord(output) then Some(ShellBasename(output, Iter2Suffix)) else None,
      ToolFor(cfg.fix))
  }

  /** The corrector the `if` runs, when the setting reaches the test
      unchanged inside its double quotes. */
  function ToolFor(fix: string): (tool: Option<Corrector>)
    ensures tool == Some(Colormap) <==> fix == "colormap"
    ensures tool == Some(Proovread) <==> QuoteInert(fix) && fix != "colormap"
    ensures tool == None <==> !QuoteInert(fix)
  {
    assert fix == "colormap" ==> QuoteInert(fix);
    if QuoteInert(fix) then Some(SelectCorrector(fix)) else None
  }

  /** `bn` names the job's own unit exactly when the shell hands the
      corrected path to `basename` as one plain argument. */
  lemma JobUnitName(cfg: Config, prefix: string, unit: string)
    requires unit != [] && '/' !in unit
    ensures CorrectionFor(cfg, prefix, unit).unitName ==
      if SafePrefix(prefix) && PlainText(unit) then Some(unit) else None
  {
    CorrectedPathRoundTrip(prefix, unit);
    CorrectedPathShellWord(prefix, unit);
  }

  /** A prefix that the shell leaves alone at the head of an unquoted word. */
  predicate SafePrefix(prefix: string)
  {
    PlainText(prefix) && (prefix == [] || prefix[0] != '-')
  }

  /** The corrected path reaches `basename` as one plain argument exactly
      when the prefix is safe and the unit has no shell-special character. */
  lemma CorrectedPathShellWord(prefix: string, unit: string)
    ensures ShellWord(CorrectedPath(prefix, unit)) <==> SafePrefix(prefix) && PlainText(unit)
  {
    var path := CorrectedPath(prefix, unit);
    assert path == prefix + (CorrectedDirSuffix + (unit + Iter2Suffix));
    assert PlainText(CorrectedDirSuffix) && PlainText(Iter2Suffix);
    PlainTextAppend(unit, Iter2Suffix);
    PlainTextAppend(CorrectedDirSuffix, unit + Iter2Suffix);
    PlainTextAppend(prefix, CorrectedDirSuffix + (unit + Iter2Suffix));
    assert path[0] == if prefix == [] then '_' else prefix[0];
  }

  /** A correction job reads its unit's split piece, writes its unit's
      corrected piece, names the unit correctly whenever the shell hands
      its path to `basename` as one argument, and runs the configured
      corrector whenever the setting survives its double quotes. */
  lemma CorrectionJobWiring(cfg: Config, prefix: string, unit: string)
    requires unit != [] && '/' !in unit
    ensures var job := CorrectionFor(cfg, prefix, unit);
      && job.longReads == SplitPath(prefix, unit)
      && job.output == CorrectedPath(prefix, unit)
      && job.unitName == (if SafePrefix(prefix) && PlainText(unit) then Some(unit) else None)
      && job.shortReads == cfg.ifasta
      && (job.tool == Some(Colormap) <==> cfg.fix == "colormap")
      && (job.tool == Some(Proovread) <==> QuoteInert(cfg.fix) && cfg.fix != "colormap")
  {
    JobUnitName(cfg, prefix, unit);
    JoinUnderDir(SplitDir(prefix), unit + FastaSuffix);
  }

  // ---------------------------------------------------------------------
  // Stages over a whole unit list

  /** Unit names a path template can carry and basename(1) can give back. */
  predicate PathSafeUnits(units: seq<string>)
  {
    forall k :: 0 <= k < |units| ==> units[k] != [] && '/' !in units[k]
  }

  /** One correction job per unit, in the order of the unit list. */
  function CorrectionJobs(cfg: Config, prefix: string, units: seq<string>): (jobs: seq<CorrectionJob>)
    ensures |jobs| == |units|
    ensures forall k :: 0 <= k < |units| ==> jobs[k] == CorrectionFor(cfg, prefix, units[k])
  {
    seq(|units|, k requires 0 <= k < |units| => CorrectionFor(cfg, prefix, units[k]))
  }

  lemma UnitListPathSafe(prefix: string, n: nat)
    requires '/' !in prefix
    ensures PathSafeUnits(UnitList(prefix, n))
  {
    UnitListAt(prefix, n);
    forall k | 0 <= k < n ensures UnitName(prefix, k) != [] && '/' !in UnitName(prefix, k) {
      UnitNameShape(prefix, k);
    }
  }

  /** Unit names carry no shell-special character beyond the prefix's own. */
  lemma UnitListPlain(prefix: string, n: nat)
    requires PlainText(prefix)
    ensures forall k :: 0 <= k < |UnitList(prefix, n)| ==> PlainText(UnitList(prefix, n)[k])
  {
    UnitListAt(prefix, n);
    forall k | 0 <= k < n ensures PlainText(UnitName(prefix, k)) {
      UnitNamePlain(prefix, k);
    }
  }

  lemma UnitNamePlain(prefix: string, i: nat)
    requires PlainText(prefix)
    ensures PlainText(UnitName(prefix, i))
  {
    var digits := IndexText(i);
    IndexTextShape(i);
    DigitsPlain(digits);
    PlainTextAppend(prefix, ".");
    PlainTextAppend(prefix + ".", digits);
  }

  lemma DigitsPlain(s: string)
    requires AllDigits(s)
    ensures PlainText(s)
  {
    forall k | 0 <= k < |s| ensures PlainChar(s[k]) {
      var c := s[k];
      assert '0' <= c <= '9';
    }
  }

  /** Position `k` of the split outputs, of the jobs and of the merge inputs
      all belong to unit `k`. */
  lemma StagesAligned(cfg: Config, prefix: string, units: seq<string>)
    requires PathSafeUnits(units)
    ensures var split, jobs, merge := SplitOutputs(prefix, units), CorrectionJobs(cfg, prefix, units), MergeInputs(prefix, units);
      && |split| == |jobs| == |merge| == |units|
      && forall k :: 0 <= k < |units| ==>
           && ShellBasename(split[k], FastaSuffix) == units[k]
           && jobs[k].longReads == split[k]
           && jobs[k].output == merge[k]
           && jobs[k].unitName == (if SafePrefix(prefix) && PlainText(units[k]) then Some(units[k]) else None)
           && (jobs[k].tool == Some(Colormap) <==> cfg.fix == "colormap")
  {
    forall k | 0 <= k < |units|
      ensures ShellBasename(SplitOutputs(prefix, units)[k], FastaSuffix) == units[k]
      ensures CorrectionJobs(cfg, prefix, units)[k].longReads == SplitOutputs(prefix, units)[k]
      ensures CorrectionJobs(cfg, prefix, units)[k].output == MergeInputs(prefix, units)[k]
      ensures CorrectionJobs(cfg, prefix, units)[k].unitName ==
        (if SafePrefix(prefix) && PlainText(units[k]) then Some(units[k]) else None)
      ensures CorrectionJobs(cfg, prefix, units)[k].tool == Some(Colormap) <==> cfg.fix == "colormap"
    {
      CorrectionJobWiring(cfg, prefix, units[k]);
      SplitPathRoundTrip(prefix, units[k]);
    }
  }

  /** Distinct units write distinct corrected files, and none of them is
      the merged file. */
  lemma MergeInputsDisjoint(prefix: string, units: seq<string>)
    requires PathSafeUnits(units) && Distinct(units)
    ensures Distinct(MergeInputs(prefix, units))
    ensures MergedOutput(prefix) !in MergeInputs(prefix, units)
  {
    var merge := MergeInputs(prefix, units);
    forall i, j | 0 <= i < j < |merge| ensures merge[i] != merge[j] {
      CorrectedPathRoundTrip(prefix, units[i]);
      CorrectedPathRoundTrip(prefix, units[j]);
    }
    forall k | 0 <= k < |merge| ensures merge[k] != MergedOutput(prefix) {
      MergedOutputIsNotAnInput(prefix, units[k]);
    }
  }

  // ---------------------------------------------------------------------
  // The resolved pipeline

  /** Every file name the rules use, resolved for one configuration. */
  datatype Plan = Plan(
    prefix: string,
    units: seq<string>,
    splitInput: string,
    splitOutputs: seq<string>,
    splitDir: string,
    jobs: seq<CorrectionJob>,
    mergeInputs: seq<string>,
    mergedOutput: string,
    assemblyInput: string,
    assemblyContigs: string,
    assemblyDir: string,
    target: string)

  function PlanFor(cfg: Config): Plan
  {
    var prefix := Prefix(cfg.pfasta);
    var units := UnitList(prefix, NumJobs);
    Plan(
      prefix,
      units,
      cfg.pfasta,
      SplitOutputs(prefix, units),
      SplitDir(prefix),
      CorrectionJobs(cfg, prefix, units),
      MergeInputs(prefix, units),
      MergedOutput(prefix),
      MergedOutput(prefix),
      AssemblyContigs(prefix),
      AssemblyDir(prefix),
      MergedOutput(prefix))
  }

  /** The stages fit together: 101 units, sorted and distinct; job `k`
      reads split piece `k` and writes merge input `k`, both of unit `k`;
      no two jobs write the same file; the merge never reads its own
      output; and the merged file is what the assembly reads and what the
      default target asks for. */
  lemma PlanWiring(cfg: Config)
    ensures var p := PlanFor(cfg);
      && |p.units| == |p.splitOutputs| == |p.jobs| == |p.mergeInputs| == NumJobs
      && Distinct(p.units) && StrictlyAscending(p.units)
      && (forall k :: 0 <= k < NumJobs ==>
            && p.units[k] == UnitName(p.prefix, k)
            && p.jobs[k].longReads == p.splitOutputs[k]
            && p.jobs[k].output == p.mergeInputs[k]
            && p.jobs[k].unitName == (if SafePrefix(p.prefix) then Some(p.units[k]) else None)
            && ShellBasename(p.splitOutputs[k], FastaSuffix) == p.units[k]
            && (p.jobs[k].tool == Some(Colormap) <==> cfg.fix == "colormap"))
      && Distinct(p.mergeInputs)
      && p.mergedOutput !in p.mergeInputs
      && p.assemblyInput == p.mergedOutput == p.target
  {
    var p := PlanFor(cfg);
    UnitListAt(p.prefix, NumJobs);
    UnitListDistinct(p.prefix, NumJobs);
    UnitListAscending(p.prefix, NumJobs);
    UnitListPathSafe(p.prefix, NumJobs);
    StagesAligned(cfg, p.prefix, p.units);
    MergeInputsDisjoint(p.prefix, p.units);
    PlanUnitNames(cfg);
  }

  /** Every job of the plan names its unit exactly when the prefix is safe
      for the shell: the rest of each path is plain by construction. */
  lemma PlanUnitNames(cfg: Config)
    ensures var p := PlanFor(cfg);
      forall k :: 0 <= k < |p.jobs| ==>
        p.jobs[k].unitName == if SafePrefix(p.prefix) then Some(p.units[k]) else None
  {
    var p := PlanFor(cfg);
    var units := UnitList(p.prefix, NumJobs);
    var jobs := CorrectionJobs(cfg, p.prefix, units);
    assert p.units == units && p.jobs == jobs;
    UnitJobNames(cfg, p.prefix, NumJobs);
    assert forall k :: 0 <= k < |jobs| ==>
      jobs[k].unitName == if SafePrefix(p.prefix) then Some(units[k]) else None;
  }

  lemma UnitJobNames(cfg: Config, prefix: string, n: nat)
    requires '/' !in prefix
    ensures forall k :: 0 <= k < |UnitList(prefix, n)| ==>
      CorrectionFor(cfg, prefix, UnitList(prefix, n)[k]).unitName ==
        if SafePrefix(prefix) then Some(UnitList(prefix, n)[k]) else None
  {
    var units := UnitList(prefix, n);
    UnitListPathSafe(prefix, n);
    if PlainText(prefix) {
      UnitListPlain(prefix, n);
    }
    forall k | 0 <= k < |units|
      ensures CorrectionFor(cfg, prefix, units[k]).unitName ==
        if SafePrefix(prefix) then Some(units[k]) else None
    {
      JobUnitName(cfg, prefix, units[k]);
    }
  }


  /** The directories of the resolved plan hold their stages' files: every
      split output lies in the split rule's `datab` directory, and the
      contigs file in the directory canu is given, which holds no earlier
      stage's file. */
  lemma PlanDirs(cfg: Config)
    ensures var p := PlanFor(cfg);
      && (forall k :: 0 <= k < |p.splitOutputs| ==> IsUnder(p.splitOutputs[k], p.splitDir))
      && IsUnder(p.assemblyContigs, p.assemblyDir)
      && !IsUnder(p.mergedOutput, p.assemblyDir)
      && (forall k :: 0 <= k < |p.mergeInputs| ==> !IsUnder(p.mergeInputs[k], p.assemblyDir))
      && (forall k :: 0 <= k < |p.splitOutputs| ==> !IsUnder(p.splitOutputs[k], p.assemblyDir))
  {
    var p := PlanFor(cfg);
    StageDirsHoldPieces(p.prefix, p.units);
    AssemblyOutputsApart(p.prefix, p.units);
  }
}
