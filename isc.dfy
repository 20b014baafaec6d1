/** Image set configuration generation of scripts/convert.py: from a case's
    `images.csv`, keep the rows for one architecture, group and db2 variant,
    name each image `registry/name:tag@digest`, sort the names and write the
    configuration unless one already exists or there is nothing to write. */
module Isc {
  import opened Text
  import opened Versions
  import opened LexOrder

  /** One CSV row: registry, image_name, tag, digest, mtype, os, arch, variant,
      insecure, digest_source, image_type, groups. */
  type Row = seq<string>

  /** The arguments of one `generate_isc` call. */
  datatype Job = Job(caseName: string, version: string, arch: string, includeGroup: Option<string>,
                     excludeGroup: Option<string>, child: Option<string>, variant: Option<string>)

  /** Python truthiness of an optional string argument. */
  predicate Truthy(o: Option<string>) {
    o.Some? && o.value != ""
  }

  // ---------------------------------------------------------------------------
  // Paths

  /** The case name used in the output path: a child name wins over a db2 variant. */
  function EffectiveCaseName(job: Job): string {
    if Truthy(job.child) then job.caseName + "-" + job.child.value
    else if Truthy(job.variant) then job.caseName + "-" + job.variant.value
    else job.caseName
  }

  /** With a child name, the db2 variant has no effect on the name. */
  lemma ChildOverridesVariant(job: Job, variant: Option<string>)
    requires Truthy(job.child)
    ensures EffectiveCaseName(job.(variant := variant)) == EffectiveCaseName(job)
    ensures EffectiveCaseName(job) == job.caseName + "-" + job.child.value
  {
  }

  /** Where the configuration goes; `None` when the version has no `.`
      (the script then fails on `version_parts[1]`). */
  function OutputPath(job: Job): (r: Option<string>)
    ensures r.None? <==> '.' !in job.version
  {
    match MajorMinor(job.version)
    case None => None
    case Some(mm) => Some(ConfigPath(EffectiveCaseName(job), mm, job.arch, FileVersion(job.version)))
  }

  /** For a plain package and a version without build metadata, convert.py
      writes the very path mirror-images.py reads its configuration from. */
  lemma OutputPathIsMirrorConfig(job: Job)
    requires '.' in job.version && '+' !in job.version
    requires !Truthy(job.child) && !Truthy(job.variant)
    ensures OutputPath(job) == Some(ConfigPath(job.caseName, MajorMinor(job.version).value, job.arch, job.version))
  {
  }

  /** The two db2 variants of a job never share an output path. */
  lemma Db2PathsDistinct(job: Job)
    requires '.' in job.version && !Truthy(job.child)
    ensures OutputPath(job.(variant := Some("s11"))) != OutputPath(job.(variant := Some("s12")))
  {
    var mm, fv := MajorMinor(job.version).value, FileVersion(job.version);
    var n11 := EffectiveCaseName(job.(variant := Some("s11")));
    var n12 := EffectiveCaseName(job.(variant := Some("s12")));
    var p11 := ConfigPath(n11, mm, job.arch, fv);
    var p12 := ConfigPath(n12, mm, job.arch, fv);
    var k := |"packages/"| + |job.caseName| + 3;
    assert p11[k] == n11[|job.caseName| + 3] == '1';
    assert p12[k] == n12[|job.caseName| + 3] == '2';
  }

  /** Where `oc ibm-pak get` leaves the case's image list. */
  function CsvPath(job: Job): string {
    "~/.ibm-pak/data/cases/" + job.caseName + "/" + job.version + "/" + job.caseName + "-" + job.version + "-images.csv"
  }

  // ---------------------------------------------------------------------------
  // Row selection

  /** The db2 variant filter: each variant drops the other's tags. */
  predicate TagExcluded(variant: Option<string>, tag: string) {
    if !Truthy(variant) then false
    else if variant.value == "s11" then
      StartsWith(tag, "s12.") || StartsWith(tag, "12.") || StartsWith(tag, "standalone-12.")
    else if variant.value == "s12" then
      StartsWith(tag, "s11.") || StartsWith(tag, "11.") || StartsWith(tag, "standalone-11.")
    else false
  }

  /** No tag is dropped by both db2 variants, so every image reaches one of the two files. */
  lemma VariantsCoverEveryTag(tag: string)
    ensures !(TagExcluded(Some("s11"), tag) && TagExcluded(Some("s12"), tag))
  {
    if StartsWith(tag, "s12.") {
      assert tag[0] == 's' && tag[1] == '1' && tag[2] == '2';
    } else if StartsWith(tag, "12.") {
      assert tag[0] == '1' && tag[1] == '2';
    } else if StartsWith(tag, "standalone-12.") {
      assert tag[0] == 's' && tag[1] == 't' && tag[12] == '2';
    }
  }

  /** An image with no architecture counts as amd64. */
  predicate ArchMatches(rowArch: string, arch: string) {
    rowArch == arch || (arch == "amd64" && rowArch == "")
  }

  /** `groups != exclude_group and (include_group is None or groups == include_group)`. */
  predicate GroupAllowed(groups: string, includeGroup: Option<string>, excludeGroup: Option<string>) {
    (excludeGroup.None? || groups != excludeGroup.value) && (includeGroup.None? || groups == includeGroup.value)
  }

  predicate Keep(job: Job, row: Row)
    requires |row| >= 12
  {
    !TagExcluded(job.variant, row[2]) && ArchMatches(row[6], job.arch)
    && GroupAllowed(row[11], job.includeGroup, job.excludeGroup)
  }

  /** `{registry}/{name}:{tag}@{digest}` */
  function ImageName(row: Row): string
    requires |row| >= 4
  {
    row[0] + "/" + row[1] + ":" + row[2] + "@" + row[3]
  }

  /** The names collected from the data rows, in row order; `None` when a row
      has fewer than twelve fields (the script fails on `row[11]`). */
  function Collect(job: Job, rows: seq<Row>): (r: Option<seq<string>>)
    ensures r.None? <==> exists i | 0 <= i < |rows| :: |rows[i]| < 12
    ensures r.Some? ==> forall x :: x in r.value <==>
      exists i | 0 <= i < |rows| :: Keep(job, rows[i]) && ImageName(rows[i]) == x
    decreases |rows|
  {
    if rows == [] then Some([])
    else
      var init, last := rows[..|rows| - 1], rows[|rows| - 1];
      assert forall i | 0 <= i < |init| :: init[i] == rows[i];
      match Collect(job, init)
      case None => None
      case Some(names) =>
        if |last| < 12 then None
        else if Keep(job, last) then Some(names + [ImageName(last)])
        else Some(names)
  }

  /** Number of data rows kept. */
  function NumKept(job: Job, rows: seq<Row>): nat
    requires forall i | 0 <= i < |rows| :: |rows[i]| >= 12
    decreases |rows|
  {
    if rows == [] then 0
    else NumKept(job, rows[..|rows| - 1]) + (if Keep(job, rows[|rows| - 1]) then 1 else 0)
  }

  /** Each kept row gives exactly one entry. */
  lemma {:induction false} CollectCount(job: Job, rows: seq<Row>)
    requires forall i | 0 <= i < |rows| :: |rows[i]| >= 12
    ensures Collect(job, rows).Some? && |Collect(job, rows).value| == NumKept(job, rows)
    decreases |rows|
  {
    if rows != [] {
      CollectCount(job, rows[..|rows| - 1]);
    }
  }

  /** Filter, then map: the name of every kept row, one entry per row, in row order. */
  function KeptNames(job: Job, rows: seq<Row>): seq<string>
    requires forall i | 0 <= i < |rows| :: |rows[i]| >= 12
    decreases |rows|
  {
    if rows == [] then []
    else (if Keep(job, rows[0]) then [ImageName(rows[0])] else []) + KeptNames(job, rows[1..])
  }

  /** Appending one row appends its name when it is kept. */
  lemma {:induction false} KeptNamesSnoc(job: Job, rows: seq<Row>, last: Row)
    requires forall i | 0 <= i < |rows| :: |rows[i]| >= 12
    requires |last| >= 12
    ensures KeptNames(job, rows + [last]) == KeptNames(job, rows) + (if Keep(job, last) then [ImageName(last)] else [])
    decreases |rows|
  {
    if rows == [] {
      assert rows + [last] == [last];
      assert [last][1..] == [];
    } else {
      assert (rows + [last])[0] == rows[0];
      assert (rows + [last])[1..] == rows[1..] + [last];
      KeptNamesSnoc(job, rows[1..], last);
      var h := if Keep(job, rows[0]) then [ImageName(rows[0])] else [];
      var t := if Keep(job, last) then [ImageName(last)] else [];
      assert h + (KeptNames(job, rows[1..]) + t) == (h + KeptNames(job, rows[1..])) + t;
    }
  }

  /** On well-formed rows, the collected list is exactly the filter-then-map
      of the rows: each kept row adds one copy of its own name, in row order. */
  lemma {:induction false} CollectIsKeptNames(job: Job, rows: seq<Row>)
    requires forall i | 0 <= i < |rows| :: |rows[i]| >= 12
    ensures Collect(job, rows) == Some(KeptNames(job, rows))
    decreases |rows|
  {
    if rows != [] {
      var init, last := rows[..|rows| - 1], rows[|rows| - 1];
      assert forall i | 0 <= i < |init| :: init[i] == rows[i];
      CollectIsKeptNames(job, init);
      KeptNamesSnoc(job, init, last);
      assert init + [last] == rows;
      var names := KeptNames(job, init);
      assert Collect(job, rows) == if Keep(job, last) then Some(names + [ImageName(last)]) else Some(names);
      assert names + [] == names;
    }
  }

  // ---------------------------------------------------------------------------
  // One configuration

  /** The emitted YAML document: the template with the sorted image names. */
  datatype ImageSetConfig = ImageSetConfig(apiVersion: string, kind: string, archiveSize: nat,
                                           additionalImages: seq<string>)

  function Template(images: seq<string>): ImageSetConfig {
    ImageSetConfig("mirror.openshift.io/v1alpha2", "ImageSetConfiguration", 2, images)
  }

  /** The files the script sees: written configurations by path, and the
      downloaded image lists by path. */
  datatype Files = Files(outputs: map<string, ImageSetConfig>, csvs: map<string, seq<Row>>)

  /** How one `generate_isc` call ends. The last four end the whole script:
      `sys.exit(1)` after a failed download, or an uncaught exception. */
  datatype Outcome = Written | Empty | Skipped | FetchFailed | BadVersion | NoHeader | ShortRow {
    predicate Aborts() {
      this == FetchFailed || this == BadVersion || this == NoHeader || this == ShortRow
    }
  }

  datatype Result = Result(files: Files, outcome: Outcome)

  /** `generate_isc` on the file state `f`; `remote` is what a download of an
      image list would fetch (a path missing from it is a failed download). */
  function Generate(f: Files, remote: map<string, seq<Row>>, job: Job): Result {
    match OutputPath(job)
    case None => Result(f, BadVersion)
    case Some(path) =>
      if path in f.outputs then Result(f, Skipped)
      else
        var csvPath := CsvPath(job);
        if csvPath !in f.csvs && csvPath !in remote then Result(f, FetchFailed)
        else
          var f1 := if csvPath in f.csvs then f else f.(csvs := f.csvs[csvPath := remote[csvPath]]);
          var csv := f1.csvs[csvPath];
          if csv == [] then Result(f1, NoHeader)
          else match Collect(job, csv[1..])
            case None => Result(f1, ShortRow)
            case Some(names) =>
              if names == [] then Result(f1, Empty)
              else Result(f1.(outputs := f1.outputs[path := Template(Sort(names))]), Written)
  }

  /** What `generate_isc` does to the files: an existing configuration is
      never touched, a new one appears only at the job's output path and only
      when written, and the image list is downloaded only when missing. */
  lemma GenerateFrame(f: Files, remote: map<string, seq<Row>>, job: Job)
    ensures var r := Generate(f, remote, job);
      && (forall p | p in f.outputs :: p in r.files.outputs && r.files.outputs[p] == f.outputs[p])
      && (forall p | p in r.files.outputs && p !in f.outputs :: r.outcome == Written && Some(p) == OutputPath(job))
      && (r.files.csvs == f.csvs || (CsvPath(job) !in f.csvs && CsvPath(job) in remote
                                     && r.files.csvs == f.csvs[CsvPath(job) := remote[CsvPath(job)]]))
  {
    var r := Generate(f, remote, job);
    match OutputPath(job)
    case None =>
    case Some(path) =>
      if path !in f.outputs {
        var csvPath := CsvPath(job);
        if csvPath in f.csvs || csvPath in remote {
          var f1 := if csvPath in f.csvs then f else f.(csvs := f.csvs[csvPath := remote[csvPath]]);
          assert f1.outputs == f.outputs;
          var csv := f1.csvs[csvPath];
          if csv != [] {
            match Collect(job, csv[1..])
            case None =>
            case Some(names) =>
              if names != [] {
                assert r.files.outputs == f.outputs[path := Template(Sort(names))];
              }
          }
        }
      }
  }

  /** A configuration is written exactly when its path is free, the image
      list is available with a header and well-formed rows, and at least one
      row is kept; it then lists the kept names, sorted, each once per row. */
  lemma GenerateWritten(f: Files, remote: map<string, seq<Row>>, job: Job)
    ensures var r := Generate(f, remote, job);
      var csvPath := CsvPath(job);
      r.outcome == Written <==>
        && OutputPath(job).Some? && OutputPath(job).value !in f.outputs
        && (csvPath in f.csvs || csvPath in remote)
        && var csv := if csvPath in f.csvs then f.csvs[csvPath] else remote[csvPath];
           csv != [] && Collect(job, csv[1..]).Some? && Collect(job, csv[1..]).value != []
    ensures var r := Generate(f, remote, job);
      r.outcome == Written ==>
        var csvPath := CsvPath(job);
        var csv := if csvPath in f.csvs then f.csvs[csvPath] else remote[csvPath];
        var images := r.files.outputs[OutputPath(job).value].additionalImages;
        && Sorted(images) && |images| > 0
        && multiset(images) == multiset(Collect(job, csv[1..]).value)
        && multiset(images) == multiset(KeptNames(job, csv[1..]))
  {
    var r := Generate(f, remote, job);
    if r.outcome == Written {
      var csvPath := CsvPath(job);
      var csv := if csvPath in f.csvs then f.csvs[csvPath] else remote[csvPath];
      CollectIsKeptNames(job, csv[1..]);
    }
  }

  /** An existing configuration skips the job before anything is downloaded. */
  lemma GenerateSkips(f: Files, remote: map<string, seq<Row>>, job: Job)
    requires OutputPath(job).Some? && OutputPath(job).value in f.outputs
    ensures Generate(f, remote, job) == Result(f, Skipped)
  {
  }

  // ---------------------------------------------------------------------------
  // Runs of jobs

  /** Jobs run in order; the first that ends the script stops the run. */
  function RunJobs(f: Files, remote: map<string, seq<Row>>, jobs: seq<Job>): (r: (Files, seq<Outcome>))
    ensures |r.1| <= |jobs|
    decreases |jobs|
  {
    if jobs == [] then (f, [])
    else
      var first := Generate(f, remote, jobs[0]);
      if first.outcome.Aborts() then (first.files, [first.outcome])
      else
        var rest := RunJobs(first.files, remote, jobs[1..]);
        (rest.0, [first.outcome] + rest.1)
  }

  /** Every outcome before the last one completed; there are fewer outcomes
      than `n` jobs only when the last one ended the run; and there is at
      least one outcome when there was a job. */
  predicate StopsAtAbort(outs: seq<Outcome>, n: nat) {
    && (forall i | 0 <= i < |outs| - 1 :: !outs[i].Aborts())
    && (|outs| < n ==> |outs| > 0 && outs[|outs| - 1].Aborts())
    && (n > 0 ==> outs != [])
  }

  lemma StopsAtAbortCons(o: Outcome, rest: seq<Outcome>, n: nat)
    requires !o.Aborts() && StopsAtAbort(rest, n)
    ensures StopsAtAbort([o] + rest, n + 1)
  {
    var outs := [o] + rest;
    forall i | 0 <= i < |outs| - 1 ensures !outs[i].Aborts() {
      if i > 0 { assert outs[i] == rest[i - 1]; }
    }
    assert |outs| < n + 1 ==> outs[|outs| - 1] == rest[|rest| - 1];
  }

  /** Jobs run until the first one that ends the script. */
  lemma {:induction false} RunJobsStopsAtAbort(f: Files, remote: map<string, seq<Row>>, jobs: seq<Job>)
    ensures StopsAtAbort(RunJobs(f, remote, jobs).1, |jobs|)
    decreases |jobs|
  {
    if jobs != [] {
      var first := Generate(f, remote, jobs[0]);
      if !first.outcome.Aborts() {
        var rest := RunJobs(first.files, remote, jobs[1..]).1;
        assert RunJobs(f, remote, jobs).1 == [first.outcome] + rest;
        RunJobsStopsAtAbort(first.files, remote, jobs[1..]);
        StopsAtAbortCons(first.outcome, rest, |jobs[1..]|);
      } else {
        assert RunJobs(f, remote, jobs).1 == [first.outcome];
      }
    }
  }

  /** A run never overwrites a configuration that existed before it. */
  lemma {:induction false} RunJobsKeepsOutputs(f: Files, remote: map<string, seq<Row>>, jobs: seq<Job>)
    ensures var g := RunJobs(f, remote, jobs).0;
      forall p | p in f.outputs :: p in g.outputs && g.outputs[p] == f.outputs[p]
    decreases |jobs|
  {
    if jobs != [] {
      var first := Generate(f, remote, jobs[0]);
      GenerateFrame(f, remote, jobs[0]);
      if !first.outcome.Aborts() {
        RunJobsKeepsOutputs(first.files, remote, jobs[1..]);
      }
    }
  }

  /** The jobs of `generate_iscs`: every (version, arch) pair, version-major. */
  function IscJobs(caseName: string, versions: seq<string>, archs: seq<string>, includeGroup: Option<string>,
                   excludeGroup: Option<string>, child: Option<string>): seq<Job>
    decreases |versions|
  {
    if versions == [] then []
    else ArchJobs(caseName, versions[0], archs, includeGroup, excludeGroup, child, None)
         + IscJobs(caseName, versions[1..], archs, includeGroup, excludeGroup, child)
  }

  /** The jobs of one version, one per architecture in order. */
  function ArchJobs(caseName: string, version: string, archs: seq<string>, includeGroup: Option<string>,
                    excludeGroup: Option<string>, child: Option<string>, variant: Option<string>): (r: seq<Job>)
    ensures |r| == |archs|
    ensures forall j | 0 <= j < |archs| :: r[j] == Job(caseName, version, archs[j], includeGroup, excludeGroup, child, variant)
  {
    seq(|archs|, j requires 0 <= j < |archs| => Job(caseName, version, archs[j], includeGroup, excludeGroup, child, variant))
  }

  /** `generate_iscs` runs one job per (version, arch) pair. */
  lemma {:induction false} IscJobsLength(caseName: string, versions: seq<string>, archs: seq<string>,
                                         includeGroup: Option<string>, excludeGroup: Option<string>, child: Option<string>)
    ensures |IscJobs(caseName, versions, archs, includeGroup, excludeGroup, child)| == |versions| * |archs|
    decreases |versions|
  {
    if versions != [] {
      IscJobsLength(caseName, versions[1..], archs, includeGroup, excludeGroup, child);
      assert |versions| * |archs| == |archs| + (|versions| - 1) * |archs|;
    }
  }

  lemma {:induction false} MulBound(i: nat, j: nat, n: nat, m: nat)
    requires i < n && j < m
    ensures i * m + j < n * m
    decreases n
  {
    assert n * m == (n - 1) * m + m;
    if i + 1 < n {
      MulBound(i, j, n - 1, m);
    }
  }

  /** Job `i * |archs| + j` is version `i` on architecture `j`: versions in
      the outer loop, architectures in the inner one. */
  lemma {:induction false} IscJobsOrder(caseName: string, versions: seq<string>, archs: seq<string>,
                                        includeGroup: Option<string>, excludeGroup: Option<string>, child: Option<string>,
                                        i: nat, j: nat)
    requires i < |versions| && j < |archs|
    ensures i * |archs| + j < |IscJobs(caseName, versions, archs, includeGroup, excludeGroup, child)|
    ensures IscJobs(caseName, versions, archs, includeGroup, excludeGroup, child)[i * |archs| + j]
         == Job(caseName, versions[i], archs[j], includeGroup, excludeGroup, child, None)
    decreases |versions|
  {
    IscJobsLength(caseName, versions, archs, includeGroup, excludeGroup, child);
    MulBound(i, j, |versions|, |archs|);
    var head := ArchJobs(caseName, versions[0], archs, includeGroup, excludeGroup, child, None);
    var tail := IscJobs(caseName, versions[1..], archs, includeGroup, excludeGroup, child);
    assert IscJobs(caseName, versions, archs, includeGroup, excludeGroup, child) == head + tail;
    if i > 0 {
      IscJobsOrder(caseName, versions[1..], archs, includeGroup, excludeGroup, child, i - 1, j);
      assert i * |archs| + j == |archs| + ((i - 1) * |archs| + j);
    }
  }

  const DB2_CASE := "ibm-db2uoperator"

  /** Each job run for the s11 variant and then for the s12 variant. */
  function Pairs(jobs: seq<Job>): (r: seq<Job>)
    ensures |r| == 2 * |jobs|
    decreases |jobs|
  {
    if jobs == [] then []
    else [jobs[0].(variant := Some("s11")), jobs[0].(variant := Some("s12"))] + Pairs(jobs[1..])
  }

  /** Jobs `2 * k` and `2 * k + 1` are the s11 and s12 runs of job `k`. */
  lemma {:induction false} PairsAt(jobs: seq<Job>, k: nat)
    requires k < |jobs|
    ensures Pairs(jobs)[2 * k] == jobs[k].(variant := Some("s11"))
    ensures Pairs(jobs)[2 * k + 1] == jobs[k].(variant := Some("s12"))
    decreases k
  {
    if k > 0 {
      PairsAt(jobs[1..], k - 1);
    }
  }

  lemma {:induction false} PairsAppend(xs: seq<Job>, ys: seq<Job>)
    ensures Pairs(xs + ys) == Pairs(xs) + Pairs(ys)
    decreases |xs|
  {
    if xs != [] {
      assert (xs + ys)[1..] == xs[1..] + ys;
      PairsAppend(xs[1..], ys);
    } else {
      assert xs + ys == ys;
    }
  }

  /** The jobs of `generate_db2_iscs`: those of `generate_iscs` for the db2
      case with no excluded group and no child, each run as s11 then s12. */
  function Db2Jobs(versions: seq<string>, archs: seq<string>, includeGroup: Option<string>): seq<Job> {
    Pairs(IscJobs(DB2_CASE, versions, archs, includeGroup, None, None))
  }

  // ---------------------------------------------------------------------------
  // The generator in place

  /** The row loop of `generate_isc`: the names of the kept rows in file
      order, or `None` at the first row with fewer than twelve fields. */
  method CollectImages(job: Job, rows: seq<Row>) returns (r: Option<seq<string>>)
    ensures r == Collect(job, rows)
  {
    var images: seq<string> := [];
    for i := 0 to |rows|
      invariant Collect(job, rows[..i]) == Some(images)
    {
      var row := rows[i];
      assert rows[..i + 1][..i] == rows[..i] && rows[..i + 1][i] == row;
      if |row| < 12 {
        assert |rows[i]| < 12;
        return None;
      }
      if TagExcluded(job.variant, row[2]) {
        continue;
      }
      if ArchMatches(row[6], job.arch) && GroupAllowed(row[11], job.includeGroup, job.excludeGroup) {
        images := images + [ImageName(row)];
      }
    }
    assert rows[..|rows|] == rows;
    return Some(images);
  }

  class Generator {
    /** Configurations on disk, by path. */
    var outputs: map<string, ImageSetConfig>
    /** Downloaded image lists, by path. */
    var csvs: map<string, seq<Row>>
    /** What a download of each image list would fetch. */
    const remote: map<string, seq<Row>>

    function State(): Files
      reads this
    {
      Files(outputs, csvs)
    }

    constructor (outputs: map<string, ImageSetConfig>, csvs: map<string, seq<Row>>, remote: map<string, seq<Row>>)
      ensures State() == Files(outputs, csvs) && this.remote == remote
    {
      this.outputs, this.csvs, this.remote := outputs, csvs, remote;
    }

    /** `generate_isc`. */
    method GenerateIsc(job: Job) returns (outcome: Outcome)
      modifies this
      ensures Result(State(), outcome) == Generate(old(State()), remote, job)
    {
      var mm := MajorMinor(job.version);
      if mm.None? {
        return BadVersion;
      }
      var name := EffectiveCaseName(job);
      var path := ConfigPath(name, mm.value, job.arch, FileVersion(job.version));
      if path in outputs {
        return Skipped;
      }
      var csvPath := CsvPath(job);
      if csvPath !in csvs {
        if csvPath !in remote {
          return FetchFailed;
        }
        csvs := csvs[csvPath := remote[csvPath]];
      }
      var csv := csvs[csvPath];
      if csv == [] {
        return NoHeader;
      }
      var images := CollectImages(job, csv[1..]);
      if images.None? {
        return ShortRow;
      }
      if |images.value| > 0 {
        outputs := outputs[path := Template(Sort(images.value))];
        return Written;
      }
      return Empty;
    }

    /** `generate_iscs`: every version on every architecture, until a job ends the script. */
    method GenerateIscs(caseName: string, versions: seq<string>, archs: seq<string>, includeGroup: Option<string>,
                        excludeGroup: Option<string>, child: Option<string>) returns (outcomes: seq<Outcome>)
      modifies this
      ensures (State(), outcomes) == RunJobs(old(State()), remote, IscJobs(caseName, versions, archs, includeGroup, excludeGroup, child))
    {
      outcomes := [];
      ghost var target := RunJobs(State(), remote, IscJobs(caseName, versions, archs, includeGroup, excludeGroup, child));
      assert [] + target.1 == target.1;
      for i := 0 to |versions|
        invariant Finish(State(), remote, outcomes, IscJobs(caseName, versions[i..], archs, includeGroup, excludeGroup, child)) == target
      {
        assert versions[i..][0] == versions[i] && versions[i..][1..] == versions[i + 1..];
        var aborted;
        outcomes, aborted := RunArchs(caseName, versions[i], archs, includeGroup, excludeGroup, child, None, outcomes,
                                      IscJobs(caseName, versions[i + 1..], archs, includeGroup, excludeGroup, child), target);
        if aborted {
          return;
        }
      }
      assert versions[|versions|..] == [];
      assert outcomes + [] == outcomes;
    }

    /** The inner loop of `generate_iscs` and `generate_db2_iscs`: one version
        on every architecture, stopping when a job ends the script. `done`,
        `later` and `target` place it inside the whole run. */
    method RunArchs(caseName: string, version: string, archs: seq<string>, includeGroup: Option<string>,
                    excludeGroup: Option<string>, child: Option<string>, variant: Option<string>,
                    done: seq<Outcome>, ghost later: seq<Job>, ghost target: (Files, seq<Outcome>))
      returns (outcomes: seq<Outcome>, aborted: bool)
      modifies this
      requires Finish(State(), remote, done, ArchJobs(caseName, version, archs, includeGroup, excludeGroup, child, variant) + later) == target
      ensures aborted ==> (State(), outcomes) == target
      ensures !aborted ==> Finish(State(), remote, outcomes, later) == target
    {
      outcomes := done;
      aborted := false;
      assert archs[0..] == archs;
      for j := 0 to |archs|
        invariant Finish(State(), remote, outcomes, ArchJobs(caseName, version, archs[j..], includeGroup, excludeGroup, child, variant) + later) == target
      {
        var job := Job(caseName, version, archs[j], includeGroup, excludeGroup, child, variant);
        ghost var rest := ArchJobs(caseName, version, archs[j..], includeGroup, excludeGroup, child, variant) + later;
        ArchJobsCons(caseName, version, archs, j, includeGroup, excludeGroup, child, variant, later);
        FinishStep(State(), remote, outcomes, rest);
        var o := GenerateIsc(job);
        outcomes := outcomes + [o];
        if o.Aborts() {
          return outcomes, true;
        }
      }
      assert archs[|archs|..] == [];
      assert ArchJobs(caseName, version, [], includeGroup, excludeGroup, child, variant) + later == later;
    }

    /** `generate_db2_iscs`: every version on every architecture, s11 then
        s12, until a job ends the script. */
    method GenerateDb2Iscs(versions: seq<string>, archs: seq<string>, includeGroup: Option<string>)
      returns (outcomes: seq<Outcome>)
      modifies this
      ensures (State(), outcomes) == RunJobs(old(State()), remote, Db2Jobs(versions, archs, includeGroup))
    {
      outcomes := [];
      ghost var target := RunJobs(State(), remote, Db2Jobs(versions, archs, includeGroup));
      assert [] + target.1 == target.1;
      for i := 0 to |versions|
        invariant Finish(State(), remote, outcomes, Db2Jobs(versions[i..], archs, includeGroup)) == target
      {
        assert versions[i..][0] == versions[i] && versions[i..][1..] == versions[i + 1..];
        PairsAppend(ArchJobs(DB2_CASE, versions[i], archs, includeGroup, None, None, None),
                    IscJobs(DB2_CASE, versions[i + 1..], archs, includeGroup, None, None));
        var aborted;
        outcomes, aborted := RunDb2Archs(versions[i], archs, includeGroup, outcomes,
                                         Db2Jobs(versions[i + 1..], archs, includeGroup), target);
        if aborted {
          return;
        }
      }
      assert versions[|versions|..] == [];
      assert outcomes + [] == outcomes;
    }

    /** The inner loop of `generate_db2_iscs`. */
    method RunDb2Archs(version: string, archs: seq<string>, includeGroup: Option<string>,
                       done: seq<Outcome>, ghost later: seq<Job>, ghost target: (Files, seq<Outcome>))
      returns (outcomes: seq<Outcome>, aborted: bool)
      modifies this
      requires Finish(State(), remote, done, Pairs(ArchJobs(DB2_CASE, version, archs, includeGroup, None, None, None)) + later) == target
      ensures aborted ==> (State(), outcomes) == target
      ensures !aborted ==> Finish(State(), remote, outcomes, later) == target
    {
      outcomes := done;
      aborted := false;
      assert archs[0..] == archs;
      for j := 0 to |archs|
        invariant Finish(State(), remote, outcomes, Pairs(ArchJobs(DB2_CASE, version, archs[j..], includeGroup, None, None, None)) + later) == target
      {
        var job := Job(DB2_CASE, version, archs[j], includeGroup, None, None, None);
        ghost var rest := Pairs(ArchJobs(DB2_CASE, version, archs[j..], includeGroup, None, None, None)) + later;
        PairsArchCons(version, archs, j, includeGroup, later);
        FinishStep(State(), remote, outcomes, rest);
        var o := GenerateIsc(job.(variant := Some("s11")));
        outcomes := outcomes + [o];
        if o.Aborts() {
          return outcomes, true;
        }
        FinishStep(State(), remote, outcomes, rest[1..]);
        o := GenerateIsc(job.(variant := Some("s12")));
        outcomes := outcomes + [o];
        if o.Aborts() {
          return outcomes, true;
        }
      }
      assert archs[|archs|..] == [];
      assert Pairs(ArchJobs(DB2_CASE, version, [], includeGroup, None, None, None)) + later == later;
    }
  }

  /** Completing a run from the middle: the outcomes so far, then those of the rest. */
  function Finish(f: Files, remote: map<string, seq<Row>>, done: seq<Outcome>, rest: seq<Job>): (Files, seq<Outcome>) {
    var r := RunJobs(f, remote, rest);
    (r.0, done + r.1)
  }

  lemma FinishStep(f: Files, remote: map<string, seq<Row>>, done: seq<Outcome>, rest: seq<Job>)
    requires rest != []
    ensures var r := Generate(f, remote, rest[0]);
      Finish(f, remote, done, rest)
        == if r.outcome.Aborts() then (r.files, done + [r.outcome])
           else Finish(r.files, remote, done + [r.outcome], rest[1..])
  {
    var r := Generate(f, remote, rest[0]);
    if !r.outcome.Aborts() {
      var tail := RunJobs(r.files, remote, rest[1..]).1;
      assert done + ([r.outcome] + tail) == done + [r.outcome] + tail;
    }
  }

  lemma ArchJobsCons(caseName: string, version: string, archs: seq<string>, j: nat, includeGroup: Option<string>,
                     excludeGroup: Option<string>, child: Option<string>, variant: Option<string>, later: seq<Job>)
    requires j < |archs|
    ensures var rest := ArchJobs(caseName, version, archs[j..], includeGroup, excludeGroup, child, variant) + later;
      && rest[0] == Job(caseName, version, archs[j], includeGroup, excludeGroup, child, variant)
      && rest[1..] == ArchJobs(caseName, version, archs[j + 1..], includeGroup, excludeGroup, child, variant) + later
  {
    assert archs[j..][1..] == archs[j + 1..];
  }

  lemma PairsArchCons(version: string, archs: seq<string>, j: nat, includeGroup: Option<string>, later: seq<Job>)
    requires j < |archs|
    ensures var job := Job(DB2_CASE, version, archs[j], includeGroup, None, None, None);
      var rest := Pairs(ArchJobs(DB2_CASE, version, archs[j..], includeGroup, None, None, None)) + later;
      && |rest| >= 2
      && rest[0] == job.(variant := Some("s11")) && rest[1] == job.(variant := Some("s12"))
      && rest[2..] == Pairs(ArchJobs(DB2_CASE, version, archs[j + 1..], includeGroup, None, None, None)) + later
  {
    ArchJobsCons(DB2_CASE, version, archs, j, includeGroup, None, None, None, []);
    var jobs := ArchJobs(DB2_CASE, version, archs[j..], includeGroup, None, None, None);
    assert jobs == [jobs[0]] + jobs[1..];
    assert jobs[1..] == ArchJobs(DB2_CASE, version, archs[j + 1..], includeGroup, None, None, None);
  }
}
