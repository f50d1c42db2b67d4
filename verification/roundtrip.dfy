/**
 The round-trip script: for every sample asset of the manifest, in order,
 and every variant of it that belongs to the selected variant set, copy
 `source/name/variant/filename` to `target/name/variant/<filename with
 .gltf or .glb replaced by .transformed.glb>` and log one success or failure
 line. The copy command itself is an oracle parameter; a failing copy is
 logged and the run goes on.
 */
module Roundtrip {
  import opened Seqs

  /** Replaces the final `.gltf` or `.glb` of a filename. */
  const TransformedSuffix: string := ".transformed.glb"

  /** The filename matches the pattern `\.(gltf|glb)$`. */
  predicate HasModelExtension(filename: string) {
    EndsWith(filename, ".gltf") || EndsWith(filename, ".glb")
  }

  /** `filename.replace(/\.(gltf|glb)$/, '.transformed.glb')`. */
  function RewriteFilename(filename: string): (r: string)
    ensures EndsWith(r, TransformedSuffix) <==> HasModelExtension(filename)
    ensures !HasModelExtension(filename) ==> r == filename
  {
    TransformedIsGlb(filename);
    if EndsWith(filename, ".gltf") then filename[..|filename| - 5] + TransformedSuffix
    else if EndsWith(filename, ".glb") then filename[..|filename| - 4] + TransformedSuffix
    else filename
  }

  /** A name ending in `.transformed.glb` ends in `.glb`. */
  lemma TransformedIsGlb(filename: string)
    ensures EndsWith(filename, TransformedSuffix) ==> EndsWith(filename, ".glb")
  {
    if EndsWith(filename, TransformedSuffix) {
      var n := |filename|;
      assert filename[n - 4..] == filename[n - |TransformedSuffix|..][|TransformedSuffix| - 4..];
      assert TransformedSuffix[|TransformedSuffix| - 4..] == ".glb";
    }
  }

  /**
   Only the final extension is rewritten and the rest of the name is kept,
   whatever it contains; `.gltf` and `.glb` lead to the same name.
   */
  lemma RewriteKeepsStem(stem: string)
    ensures RewriteFilename(stem + ".gltf") == stem + TransformedSuffix
    ensures RewriteFilename(stem + ".glb") == stem + TransformedSuffix
  {
    var gltf, glb := stem + ".gltf", stem + ".glb";
    assert gltf[|gltf| - 5..] == ".gltf" && gltf[..|gltf| - 5] == stem;
    assert glb[|glb| - 4..] == ".glb" && glb[..|glb| - 4] == stem;
    assert glb[|glb| - 1] == 'b';
  }

  /** Rewriting a rewritten name rewrites it again: the output ends in `.glb` itself. */
  lemma RewriteNotIdempotent(filename: string)
    requires HasModelExtension(filename)
    ensures |RewriteFilename(RewriteFilename(filename))| == |RewriteFilename(filename)| + 12
  {
    var r := RewriteFilename(filename);
    TransformedIsGlb(r);
    assert r[|r| - 1] == 'b';
  }

  /** Where samples are read and written, and which variants are copied. */
  datatype Config = Config(source: string, target: string, variants: set<string>)

  /** One manifest asset: its name and its (variant, filename) entries in object order. */
  datatype Sample = Sample(name: string, variants: seq<(string, string)>)

  /** Paths as their segments, before `path.join`. */
  function SourcePath(cfg: Config, name: string, variant: string, filename: string): seq<string> {
    [cfg.source, name, variant, filename]
  }

  function TargetPath(cfg: Config, name: string, variant: string, filename: string): seq<string> {
    [cfg.target, name, variant, RewriteFilename(filename)]
  }

  /** One copy to perform: asset position, name, variant, filename and both paths. */
  datatype Job = Job(asset: nat, name: string, variant: string, filename: string, src: seq<string>, dst: seq<string>)

  /** A selected variant, copied between the source path and the rewritten target path. */
  predicate PlannedFrom(cfg: Config, job: Job) {
    && job.variant in cfg.variants
    && job.src == SourcePath(cfg, job.name, job.variant, job.filename)
    && job.dst == TargetPath(cfg, job.name, job.variant, job.filename)
  }

  /** The entries whose variant is selected, in entry order. */
  function Selected(entries: seq<(string, string)>, variants: set<string>): (sel: seq<(string, string)>)
    ensures |sel| <= |entries|
    ensures forall k :: 0 <= k < |sel| ==> sel[k] in entries && sel[k].0 in variants
    ensures forall i :: 0 <= i < |entries| && entries[i].0 in variants ==> entries[i] in sel
  {
    if |entries| == 0 then []
    else
      var rest := Selected(entries[1..], variants);
      assert forall i :: 1 <= i < |entries| ==> entries[i] == entries[1..][i - 1];
      if entries[0].0 in variants then [entries[0]] + rest else rest
  }

  /** Filtering repeats no entry: each entry is kept at most as often as it occurs. */
  lemma {:induction false} SelectedSubMultiset(entries: seq<(string, string)>, variants: set<string>)
    ensures multiset(Selected(entries, variants)) <= multiset(entries)
  {
    if |entries| > 0 {
      assert entries == [entries[0]] + entries[1..];
      SelectedSubMultiset(entries[1..], variants);
    }
  }

  /**
   Filtering keeps entry order: the selection of concatenated entry lists is
   the concatenation of their selections.
   */
  lemma {:induction false} SelectedAppend(a: seq<(string, string)>, b: seq<(string, string)>, variants: set<string>)
    ensures Selected(a + b, variants) == Selected(a, variants) + Selected(b, variants)
  {
    if |a| == 0 {
      assert a + b == b;
    } else {
      var rest := a[1..];
      assert (a + b)[0] == a[0];
      assert (a + b)[1..] == rest + b;
      SelectedAppend(rest, b, variants);
    }
  }

  /** The job copying one (variant, filename) entry of asset `index`. */
  function JobFor(cfg: Config, index: nat, name: string, entry: (string, string)): Job {
    var (variant, filename) := entry;
    Job(index, name, variant, filename,
        SourcePath(cfg, name, variant, filename), TargetPath(cfg, name, variant, filename))
  }

  /** The jobs of one asset: one per entry whose variant is selected, in entry order. */
  function SampleJobs(cfg: Config, index: nat, name: string, entries: seq<(string, string)>): seq<Job> {
    var sel := Selected(entries, cfg.variants);
    seq(|sel|, k requires 0 <= k < |sel| => JobFor(cfg, index, name, sel[k]))
  }

  /** `job` copies one of `entries` of asset `index`, named `name`, with a selected variant. */
  predicate CopiesEntry(cfg: Config, index: nat, name: string, entries: seq<(string, string)>, job: Job) {
    && job.asset == index
    && job.name == name
    && (job.variant, job.filename) in entries
    && PlannedFrom(cfg, job)
  }

  /**
   Every job of an asset copies one of its entries with a selected variant,
   from the source path to the rewritten target path.
   */
  lemma SampleJobsPlanned(cfg: Config, index: nat, name: string, entries: seq<(string, string)>)
    ensures |SampleJobs(cfg, index, name, entries)| <= |entries|
    ensures forall k :: 0 <= k < |SampleJobs(cfg, index, name, entries)| ==>
      CopiesEntry(cfg, index, name, entries, SampleJobs(cfg, index, name, entries)[k])
  {
  }

  /** The position of the job for selected entry `i` among the asset's jobs. */
  lemma SampleJobPosition(cfg: Config, index: nat, name: string, entries: seq<(string, string)>, i: nat)
    returns (k: nat)
    requires i < |entries| && entries[i].0 in cfg.variants
    ensures k < |SampleJobs(cfg, index, name, entries)|
    ensures SampleJobs(cfg, index, name, entries)[k] == JobFor(cfg, index, name, entries[i])
  {
    var sel := Selected(entries, cfg.variants);
    k := FirstIndex(sel, entries[i]);
  }

  /** The jobs of the first `n` assets, asset by asset. */
  function PlanUpTo(cfg: Config, manifest: seq<Sample>, n: nat): seq<Job>
    requires n <= |manifest|
  {
    if n == 0 then []
    else PlanUpTo(cfg, manifest, n - 1) + SampleJobs(cfg, n - 1, manifest[n - 1].name, manifest[n - 1].variants)
  }

  /** `job` copies an entry of one of the first `n` assets of the manifest. */
  predicate PlannedJob(cfg: Config, manifest: seq<Sample>, n: nat, job: Job)
    requires n <= |manifest|
  {
    && job.asset < n
    && CopiesEntry(cfg, job.asset, manifest[job.asset].name, manifest[job.asset].variants, job)
  }

  /**
   Every planned job belongs to an asset among the first `n`, carries that
   asset's name, copies one of that asset's entries, has a selected variant
   and uses the two paths.
   */
  lemma {:induction false} PlanJobsPlanned(cfg: Config, manifest: seq<Sample>, n: nat)
    requires n <= |manifest|
    ensures forall k :: 0 <= k < |PlanUpTo(cfg, manifest, n)| ==>
      PlannedJob(cfg, manifest, n, PlanUpTo(cfg, manifest, n)[k])
  {
    if n > 0 {
      var m: nat := n - 1;
      PlanJobsPlanned(cfg, manifest, m);
      var prefix := PlanUpTo(cfg, manifest, m);
      var own := SampleJobs(cfg, m, manifest[m].name, manifest[m].variants);
      SampleJobsPlanned(cfg, m, manifest[m].name, manifest[m].variants);
      var jobs := prefix + own;
      assert PlanUpTo(cfg, manifest, n) == jobs;
      forall k | 0 <= k < |jobs|
        ensures PlannedJob(cfg, manifest, n, jobs[k])
      {
        if k < |prefix| {
          assert jobs[k] == prefix[k];
        } else {
          assert jobs[k] == own[k - |prefix|];
        }
      }
    }
  }

  /** The jobs of asset `a`, in the order they occur in `jobs`. */
  function JobsOf(jobs: seq<Job>, a: nat): seq<Job> {
    if |jobs| == 0 then []
    else (if jobs[0].asset == a then [jobs[0]] else []) + JobsOf(jobs[1..], a)
  }

  lemma {:induction false} JobsOfAppend(xs: seq<Job>, ys: seq<Job>, a: nat)
    ensures JobsOf(xs + ys, a) == JobsOf(xs, a) + JobsOf(ys, a)
  {
    if |xs| == 0 {
      assert xs + ys == ys;
    } else {
      var head := if xs[0].asset == a then [xs[0]] else [];
      var rest := xs[1..];
      assert (xs + ys)[0] == xs[0];
      assert (xs + ys)[1..] == rest + ys;
      JobsOfAppend(rest, ys, a);
      assert JobsOf(xs + ys, a) == head + (JobsOf(rest, a) + JobsOf(ys, a));
    }
  }

  /** Jobs all of asset `b` are kept whole for `a == b` and dropped otherwise. */
  lemma {:induction false} JobsOfSingleAsset(jobs: seq<Job>, b: nat, a: nat)
    requires forall k :: 0 <= k < |jobs| ==> jobs[k].asset == b
    ensures JobsOf(jobs, a) == if a == b then jobs else []
  {
    if |jobs| > 0 {
      assert forall k :: 0 <= k < |jobs[1..]| ==> jobs[1..][k] == jobs[k + 1];
      JobsOfSingleAsset(jobs[1..], b, a);
      assert jobs == [jobs[0]] + jobs[1..];
    }
  }

  /** Jobs none of which is of asset `a` keep nothing for it. */
  lemma {:induction false} JobsOfAbsent(jobs: seq<Job>, a: nat)
    requires forall k :: 0 <= k < |jobs| ==> jobs[k].asset != a
    ensures JobsOf(jobs, a) == []
  {
    if |jobs| > 0 {
      assert forall k :: 0 <= k < |jobs[1..]| ==> jobs[1..][k] == jobs[k + 1];
      JobsOfAbsent(jobs[1..], a);
    }
  }

  /**
   The plan holds exactly the jobs of each asset's own entries: picking out
   the jobs of asset `a` gives its selected entries, once each, in entry order.
   */
  lemma {:induction false} PlanJobsOfAsset(cfg: Config, manifest: seq<Sample>, n: nat, a: nat)
    requires a < n <= |manifest|
    ensures JobsOf(PlanUpTo(cfg, manifest, n), a) == SampleJobs(cfg, a, manifest[a].name, manifest[a].variants)
  {
    var m: nat := n - 1;
    var prefix := PlanUpTo(cfg, manifest, m);
    var own := SampleJobs(cfg, m, manifest[m].name, manifest[m].variants);
    assert PlanUpTo(cfg, manifest, n) == prefix + own;
    JobsOfAppend(prefix, own, a);
    SampleJobsPlanned(cfg, m, manifest[m].name, manifest[m].variants);
    JobsOfSingleAsset(own, m, a);
    if a < m {
      PlanJobsOfAsset(cfg, manifest, m, a);
      assert JobsOf(own, a) == [];
    } else {
      PlanJobsPlanned(cfg, manifest, m);
      JobsOfAbsent(prefix, a);
    }
  }

  /** Asset positions never decrease along `jobs`. */
  predicate AssetsAscending(jobs: seq<Job>) {
    forall k, l :: 0 <= k < l < |jobs| ==> jobs[k].asset <= jobs[l].asset
  }

  /** Ascending jobs of earlier assets followed by jobs of asset `m` are ascending. */
  lemma AscendingThenAsset(prefix: seq<Job>, own: seq<Job>, m: nat)
    requires AssetsAscending(prefix)
    requires forall k :: 0 <= k < |prefix| ==> prefix[k].asset < m
    requires forall k :: 0 <= k < |own| ==> own[k].asset == m
    ensures AssetsAscending(prefix + own)
  {
    var jobs := prefix + own;
    forall k, l | 0 <= k < l < |jobs|
      ensures jobs[k].asset <= jobs[l].asset
    {
      if l < |prefix| {
        assert jobs[k] == prefix[k] && jobs[l] == prefix[l];
      } else if k < |prefix| {
        assert jobs[k] == prefix[k] && jobs[l] == own[l - |prefix|];
      } else {
        assert jobs[k] == own[k - |prefix|] && jobs[l] == own[l - |prefix|];
      }
    }
  }

  /** Jobs come asset by asset, in manifest order. */
  lemma {:induction false} PlanInManifestOrder(cfg: Config, manifest: seq<Sample>, n: nat)
    requires n <= |manifest|
    ensures forall k, l :: 0 <= k < l < |PlanUpTo(cfg, manifest, n)| ==>
      PlanUpTo(cfg, manifest, n)[k].asset <= PlanUpTo(cfg, manifest, n)[l].asset
  {
    if n > 0 {
      var m: nat := n - 1;
      PlanInManifestOrder(cfg, manifest, m);
      PlanJobsPlanned(cfg, manifest, m);
      SampleJobsPlanned(cfg, m, manifest[m].name, manifest[m].variants);
      AscendingThenAsset(PlanUpTo(cfg, manifest, m), SampleJobs(cfg, m, manifest[m].name, manifest[m].variants), m);
      assert PlanUpTo(cfg, manifest, n) == PlanUpTo(cfg, manifest, m) + SampleJobs(cfg, m, manifest[m].name, manifest[m].variants);
    }
  }

  /** Every job of the run, in manifest order. */
  function Plan(cfg: Config, manifest: seq<Sample>): seq<Job> {
    PlanUpTo(cfg, manifest, |manifest|)
  }

  /** The position in the plan of the job for entry `i` of asset `a`. */
  lemma {:induction false} PlanPosition(cfg: Config, manifest: seq<Sample>, n: nat, a: nat, i: nat)
    returns (k: nat)
    requires a < n <= |manifest| && i < |manifest[a].variants|
    requires manifest[a].variants[i].0 in cfg.variants
    ensures k < |PlanUpTo(cfg, manifest, n)|
    ensures PlanUpTo(cfg, manifest, n)[k] == JobFor(cfg, a, manifest[a].name, manifest[a].variants[i])
  {
    var m: nat := n - 1;
    var prefix := PlanUpTo(cfg, manifest, m);
    var own := SampleJobs(cfg, m, manifest[m].name, manifest[m].variants);
    var plan := PlanUpTo(cfg, manifest, n);
    assert plan == prefix + own;
    if a < m {
      k := PlanPosition(cfg, manifest, m, a, i);
      assert plan[k] == prefix[k];
    } else {
      assert a == m;
      var j := SampleJobPosition(cfg, m, manifest[m].name, manifest[m].variants, i);
      k := |prefix| + j;
      assert plan[k] == own[j];
    }
  }

  /** Some job of `jobs` copies `filename` of `variant` for asset `asset`. */
  predicate HasJob(jobs: seq<Job>, asset: nat, variant: string, filename: string) {
    exists k :: 0 <= k < |jobs| && jobs[k].asset == asset && jobs[k].variant == variant && jobs[k].filename == filename
  }

  /** Every entry of every asset whose variant is selected has a job in the plan. */
  lemma PlanCoversSelectedEntries(cfg: Config, manifest: seq<Sample>, a: nat, i: nat)
    requires a < |manifest| && i < |manifest[a].variants|
    requires manifest[a].variants[i].0 in cfg.variants
    ensures HasJob(Plan(cfg, manifest), a, manifest[a].variants[i].0, manifest[a].variants[i].1)
  {
    var k := PlanPosition(cfg, manifest, |manifest|, a, i);
    assert Plan(cfg, manifest)[k].asset == a;
  }

  /** The result of one copy: success, or failure with the command's error message. */
  datatype Outcome = Pass | Fail(message: string)

  /** The lines the script logs. */
  datatype Line =
    | Header(name: string, position: nat, total: nat)
    | Succeeded(variant: string, filename: string)
    | Failed(variant: string, filename: string, message: string)
    | Blank
    | Done

  function OutcomeLine(job: Job, outcome: Outcome): Line {
    match outcome
    case Pass => Succeeded(job.variant, job.filename)
    case Fail(message) => Failed(job.variant, job.filename, message)
  }

  /** One outcome line per job, in job order, whatever the outcomes are. */
  function JobLines(jobs: seq<Job>, outcome: Job -> Outcome): (lines: seq<Line>)
    ensures |lines| == |jobs|
    ensures forall k :: 0 <= k < |lines| ==>
      && (lines[k].Succeeded? || lines[k].Failed?)
      && lines[k].variant == jobs[k].variant && lines[k].filename == jobs[k].filename
      && (lines[k].Failed? <==> outcome(jobs[k]).Fail?)
      && (lines[k].Failed? ==> lines[k].message == outcome(jobs[k]).message)
  {
    if |jobs| == 0 then []
    else [OutcomeLine(jobs[0], outcome(jobs[0]))] + JobLines(jobs[1..], outcome)
  }

  /** The lines logged for asset `i`: its header, its outcome lines, a blank line. */
  function SampleLog(cfg: Config, manifest: seq<Sample>, i: nat, outcome: Job -> Outcome): seq<Line>
    requires i < |manifest|
  {
    [Header(manifest[i].name, i + 1, |manifest|)]
    + JobLines(SampleJobs(cfg, i, manifest[i].name, manifest[i].variants), outcome)
    + [Blank]
  }

  /** The lines logged for the first `n` assets. */
  function LogUpTo(cfg: Config, manifest: seq<Sample>, n: nat, outcome: Job -> Outcome): (log: seq<Line>)
    requires n <= |manifest|
    ensures forall k :: 0 <= k < |log| ==> !log[k].Done?
  {
    if n == 0 then []
    else
      var prefix := LogUpTo(cfg, manifest, n - 1, outcome);
      var own := SampleLog(cfg, manifest, n - 1, outcome);
      assert forall k :: 0 <= k < |own| ==> !own[k].Done?;
      prefix + own
  }

  /** The whole log of a run; "Done" comes once, after every asset. */
  function RunLog(cfg: Config, manifest: seq<Sample>, outcome: Job -> Outcome): (log: seq<Line>)
    ensures |log| > 0 && log[|log| - 1] == Done
    ensures forall k :: 0 <= k < |log| - 1 ==> !log[k].Done?
  {
    LogUpTo(cfg, manifest, |manifest|, outcome) + [Done]
  }

  /** The outcome lines of a log, in order. */
  function Outcomes(lines: seq<Line>): (r: seq<Line>)
    ensures forall k :: 0 <= k < |r| ==> r[k].Succeeded? || r[k].Failed?
  {
    if |lines| == 0 then []
    else (if lines[0].Succeeded? || lines[0].Failed? then [lines[0]] else []) + Outcomes(lines[1..])
  }

  /** The asset headers of a log, in order. */
  function Headers(lines: seq<Line>): seq<Line> {
    if |lines| == 0 then []
    else (if lines[0].Header? then [lines[0]] else []) + Headers(lines[1..])
  }

  lemma {:induction false} OutcomesAppend(a: seq<Line>, b: seq<Line>)
    ensures Outcomes(a + b) == Outcomes(a) + Outcomes(b)
  {
    if |a| == 0 {
      assert a + b == b;
    } else {
      var head := if a[0].Succeeded? || a[0].Failed? then [a[0]] else [];
      var rest := a[1..];
      assert (a + b)[0] == a[0];
      assert (a + b)[1..] == rest + b;
      OutcomesAppend(rest, b);
      assert Outcomes(a + b) == head + (Outcomes(rest) + Outcomes(b));
      assert Outcomes(a) == head + Outcomes(rest);
    }
  }

  lemma {:induction false} HeadersAppend(a: seq<Line>, b: seq<Line>)
    ensures Headers(a + b) == Headers(a) + Headers(b)
  {
    if |a| == 0 {
      assert a + b == b;
    } else {
      var head := if a[0].Header? then [a[0]] else [];
      var rest := a[1..];
      assert (a + b)[0] == a[0];
      assert (a + b)[1..] == rest + b;
      HeadersAppend(rest, b);
      assert Headers(a + b) == head + (Headers(rest) + Headers(b));
      assert Headers(a) == head + Headers(rest);
    }
  }

  lemma {:induction false} JobLinesAppend(a: seq<Job>, b: seq<Job>, outcome: Job -> Outcome)
    ensures JobLines(a + b, outcome) == JobLines(a, outcome) + JobLines(b, outcome)
  {
    if |a| == 0 {
      assert a + b == b;
    } else {
      assert (a + b)[1..] == a[1..] + b;
      JobLinesAppend(a[1..], b, outcome);
    }
  }

  /** Outcome lines are all outcome lines; none of them is a header. */
  lemma {:induction false} JobLinesSelect(jobs: seq<Job>, outcome: Job -> Outcome)
    ensures Outcomes(JobLines(jobs, outcome)) == JobLines(jobs, outcome)
    ensures Headers(JobLines(jobs, outcome)) == []
  {
    if |jobs| > 0 {
      JobLinesSelect(jobs[1..], outcome);
    }
  }

  /** The outcome and header lines of one asset's block. */
  lemma SampleLogSelect(cfg: Config, manifest: seq<Sample>, i: nat, outcome: Job -> Outcome)
    requires i < |manifest|
    ensures Outcomes(SampleLog(cfg, manifest, i, outcome))
         == JobLines(SampleJobs(cfg, i, manifest[i].name, manifest[i].variants), outcome)
    ensures Headers(SampleLog(cfg, manifest, i, outcome)) == [Header(manifest[i].name, i + 1, |manifest|)]
  {
    var head := [Header(manifest[i].name, i + 1, |manifest|)];
    var body := JobLines(SampleJobs(cfg, i, manifest[i].name, manifest[i].variants), outcome);
    JobLinesSelect(SampleJobs(cfg, i, manifest[i].name, manifest[i].variants), outcome);
    OutcomesAppend(head + body, [Blank]);
    OutcomesAppend(head, body);
    HeadersAppend(head + body, [Blank]);
    HeadersAppend(head, body);
    assert head[1..] == [] && [Blank][1..] == [];
  }

  lemma {:induction false} LogUpToOutcomes(cfg: Config, manifest: seq<Sample>, n: nat, outcome: Job -> Outcome)
    requires n <= |manifest|
    ensures Outcomes(LogUpTo(cfg, manifest, n, outcome)) == JobLines(PlanUpTo(cfg, manifest, n), outcome)
  {
    if n > 0 {
      var m: nat := n - 1;
      LogUpToOutcomes(cfg, manifest, m, outcome);
      SampleLogSelect(cfg, manifest, m, outcome);
      var prevLog, ownLog := LogUpTo(cfg, manifest, m, outcome), SampleLog(cfg, manifest, m, outcome);
      var prevJobs := PlanUpTo(cfg, manifest, m);
      var ownJobs := SampleJobs(cfg, m, manifest[m].name, manifest[m].variants);
      OutcomesAppend(prevLog, ownLog);
      JobLinesAppend(prevJobs, ownJobs, outcome);
    }
  }

  /**
   Every planned job gets exactly one outcome line, in plan order, and
   nothing else does: a failing copy does not end the run early.
   */
  lemma RunReportsEveryJob(cfg: Config, manifest: seq<Sample>, outcome: Job -> Outcome)
    ensures Outcomes(RunLog(cfg, manifest, outcome)) == JobLines(Plan(cfg, manifest), outcome)
  {
    LogUpToOutcomes(cfg, manifest, |manifest|, outcome);
    OutcomesAppend(LogUpTo(cfg, manifest, |manifest|, outcome), [Done]);
    assert [Done][1..] == [];
  }

  /** Whatever fails, two runs log outcome lines for the same variants and files, in the same order. */
  lemma OutcomesIndependentOfFailures(cfg: Config, manifest: seq<Sample>, o1: Job -> Outcome, o2: Job -> Outcome)
    ensures |Outcomes(RunLog(cfg, manifest, o1))| == |Outcomes(RunLog(cfg, manifest, o2))| == |Plan(cfg, manifest)|
    ensures forall k :: 0 <= k < |Plan(cfg, manifest)| ==>
      && Outcomes(RunLog(cfg, manifest, o1))[k].variant == Outcomes(RunLog(cfg, manifest, o2))[k].variant
      && Outcomes(RunLog(cfg, manifest, o1))[k].filename == Outcomes(RunLog(cfg, manifest, o2))[k].filename
  {
    RunReportsEveryJob(cfg, manifest, o1);
    RunReportsEveryJob(cfg, manifest, o2);
  }

  /** The header of every asset of the manifest, in order: asset `i` as `i + 1` of the manifest length. */
  function Announcements(manifest: seq<Sample>, n: nat): (r: seq<Line>)
    requires n <= |manifest|
    ensures |r| == n
    ensures forall i :: 0 <= i < n ==> r[i] == Header(manifest[i].name, i + 1, |manifest|)
  {
    if n == 0 then [] else Announcements(manifest, n - 1) + [Header(manifest[n - 1].name, n, |manifest|)]
  }

  lemma {:induction false} LogUpToHeaders(cfg: Config, manifest: seq<Sample>, n: nat, outcome: Job -> Outcome)
    requires n <= |manifest|
    ensures Headers(LogUpTo(cfg, manifest, n, outcome)) == Announcements(manifest, n)
  {
    if n > 0 {
      var m: nat := n - 1;
      LogUpToHeaders(cfg, manifest, m, outcome);
      SampleLogSelect(cfg, manifest, m, outcome);
      HeadersAppend(LogUpTo(cfg, manifest, m, outcome), SampleLog(cfg, manifest, m, outcome));
    }
  }

  /** Assets are announced in manifest order; asset `i` as `i + 1` of the manifest length. */
  lemma RunAnnouncesAssetsInOrder(cfg: Config, manifest: seq<Sample>, outcome: Job -> Outcome)
    ensures Headers(RunLog(cfg, manifest, outcome)) == Announcements(manifest, |manifest|)
  {
    LogUpToHeaders(cfg, manifest, |manifest|, outcome);
    HeadersAppend(LogUpTo(cfg, manifest, |manifest|, outcome), [Done]);
    assert [Done][1..] == [];
  }

  /** A small run: two assets, both variants selected; only Box's glTF copy fails. */
  const ExampleConfig: Config := Config("samples", "out", {"glTF", "glTF-Binary"})

  const ExampleManifest: seq<Sample> := [
    Sample("Box", [("glTF", "Box.gltf"), ("glTF-Binary", "Box.glb")]),
    Sample("Fox", [("glTF", "Fox.gltf"), ("glTF-Binary", "Fox.glb")])]

  function ExampleOutcome(job: Job): Outcome {
    if job.name == "Box" && job.variant == "glTF" then Fail("exit 1") else Pass
  }

  /** Both entries of an asset with two selected variants become jobs, in entry order. */
  lemma TwoSelectedJobs(cfg: Config, index: nat, name: string, e0: (string, string), e1: (string, string))
    requires e0.0 in cfg.variants && e1.0 in cfg.variants
    ensures SampleJobs(cfg, index, name, [e0, e1]) == [JobFor(cfg, index, name, e0), JobFor(cfg, index, name, e1)]
  {
    assert [e0, e1][1..] == [e1];
    assert [e1][1..] == [];
    assert Selected([e0, e1], cfg.variants) == [e0, e1];
  }

  lemma ExamplePlan()
    ensures Plan(ExampleConfig, ExampleManifest) == [
      JobFor(ExampleConfig, 0, "Box", ("glTF", "Box.gltf")),
      JobFor(ExampleConfig, 0, "Box", ("glTF-Binary", "Box.glb")),
      JobFor(ExampleConfig, 1, "Fox", ("glTF", "Fox.gltf")),
      JobFor(ExampleConfig, 1, "Fox", ("glTF-Binary", "Fox.glb"))]
  {
    var cfg, m := ExampleConfig, ExampleManifest;
    TwoSelectedJobs(cfg, 0, "Box", ("glTF", "Box.gltf"), ("glTF-Binary", "Box.glb"));
    TwoSelectedJobs(cfg, 1, "Fox", ("glTF", "Fox.gltf"), ("glTF-Binary", "Fox.glb"));
    assert PlanUpTo(cfg, m, 0) == [];
    assert PlanUpTo(cfg, m, 1) == SampleJobs(cfg, 0, "Box", m[0].variants);
  }

  /** The outcome lines of four jobs. */
  lemma FourJobLines(jobs: seq<Job>, outcome: Job -> Outcome)
    requires |jobs| == 4
    ensures JobLines(jobs, outcome) == [
      OutcomeLine(jobs[0], outcome(jobs[0])), OutcomeLine(jobs[1], outcome(jobs[1])),
      OutcomeLine(jobs[2], outcome(jobs[2])), OutcomeLine(jobs[3], outcome(jobs[3]))]
  {
    assert jobs[1..][1..] == jobs[2..] && jobs[2..][1..] == jobs[3..] && jobs[3..][1..] == [];
    var l3 := [OutcomeLine(jobs[3], outcome(jobs[3]))];
    assert JobLines(jobs[3..], outcome) == l3;
    var l2 := [OutcomeLine(jobs[2], outcome(jobs[2]))] + l3;
    assert JobLines(jobs[2..], outcome) == l2;
    var l1 := [OutcomeLine(jobs[1], outcome(jobs[1]))] + l2;
    assert JobLines(jobs[1..], outcome) == l1;
  }

  /**
   Two assets with two selected variants each, where only the first copy
   fails: one failure line and three success lines, in order, then "Done".
   */
  lemma OneFailureAmongFour()
    ensures Outcomes(RunLog(ExampleConfig, ExampleManifest, ExampleOutcome)) == [
      Failed("glTF", "Box.gltf", "exit 1"), Succeeded("glTF-Binary", "Box.glb"),
      Succeeded("glTF", "Fox.gltf"), Succeeded("glTF-Binary", "Fox.glb")]
  {
    RunReportsEveryJob(ExampleConfig, ExampleManifest, ExampleOutcome);
    ExamplePlan();
    FourJobLines(Plan(ExampleConfig, ExampleManifest), ExampleOutcome);
  }
}
