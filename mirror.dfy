/** The decisions of `mirror_package` and `run_command` in
    scripts/mirror-images.py: version and configuration path, the command for
    each mirror mode, and how the exit code and the captured result line
    become the final `MirrorResult`. */
module Mirror {
  import opened Text
  import opened LogLines
  import opened StreamDrain
  import opened Versions

  /** Result of a mirror operation. */
  datatype MirrorResult = MirrorResult(images: nat, mirrored: nat) {
    /** Every image was mirrored, and there was at least one. */
    predicate Success() {
      images != 0 && images == mirrored
    }
  }

  /** The result of every failed or skipped operation. */
  const NOTHING := MirrorResult(0, 0)

  /** `success` is true exactly for a complete, non-empty run; an over-count
      or an empty configuration is a plain failure, not an error. */
  lemma SuccessCases(r: MirrorResult)
    ensures r.Success() <==> r.images > 0 && r.mirrored == r.images
    ensures r.mirrored > r.images ==> !r.Success()
    ensures r.mirrored < r.images ==> !r.Success()
    ensures r.images == 0 ==> !r.Success()
  {
  }

  // ---------------------------------------------------------------------------
  // The command for each mode

  const AUTH_FILE := "/home/david/.ibm-mas/auth.json"

  /** The arguments shared by all three modes. */
  function BaseCommand(path: string): seq<string> {
    ["./oc-mirror", "--v2", "--config", path, "--authfile", AUTH_FILE]
  }

  /** The three mirror modes the driver knows. */
  predicate KnownMode(mode: string) {
    mode == "m2m" || mode == "m2d" || mode == "d2m"
  }

  /** The oc-mirror invocation for `mode`: mirror to mirror through a
      workspace, mirror to disk, or disk to mirror; `None` for any other mode. */
  function BuildCommand(mode: string, path: string, package: string, arch: string, version: string,
                        target: string): (r: Option<seq<string>>)
    ensures r.Some? <==> KnownMode(mode)
    ensures r.Some? ==> |r.value| > 6 && r.value[..6] == BaseCommand(path) && r.value[3] == path
    ensures r.Some? ==> (r.value[|r.value| - 1] == "docker://" + target <==> mode != "m2d")
    ensures mode == "m2m" ==> r == Some(BaseCommand(path) + ["--workspace", "file://workspace/" + package + "/" + arch + "/" + version,
                                                             "docker://" + target])
    ensures mode == "m2d" ==> r == Some(BaseCommand(path) + ["file://output-dir/" + package + "/" + arch + "/" + version])
    ensures mode == "d2m" ==> r == Some(BaseCommand(path) + ["--from", "file://output-dir/" + package + "/" + arch + "/" + version,
                                                             "docker://" + target])
  {
    var base := BaseCommand(path);
    var tree := package + "/" + arch + "/" + version;
    var docker := "docker://" + target;
    var disk := "file://output-dir/" + tree;
    assert disk[0] != docker[0];
    if mode == "m2m" then
      assert "file://workspace/" + tree == "file://workspace/" + package + "/" + arch + "/" + version;
      Some(base + ["--workspace", "file://workspace/" + tree, docker])
    else if mode == "m2d" then
      assert disk == "file://output-dir/" + package + "/" + arch + "/" + version;
      Some(base + [disk])
    else if mode == "d2m" then
      assert disk == "file://output-dir/" + package + "/" + arch + "/" + version;
      Some(base + ["--from", disk, docker])
    else None
  }

  /** Different modes never produce the same command. */
  lemma CommandIdentifiesMode(m1: string, m2: string, path: string, package: string, arch: string,
                              version: string, target: string)
    requires BuildCommand(m1, path, package, arch, version, target).Some?
    requires BuildCommand(m1, path, package, arch, version, target) == BuildCommand(m2, path, package, arch, version, target)
    ensures m1 == m2
  {
    var c := BuildCommand(m1, path, package, arch, version, target).value;
    if m1 == "m2m" || m2 == "m2m" {
      assert c[6] == "--workspace";
      assert "--workspace"[2] != "--from"[2];
    }
  }

  // ---------------------------------------------------------------------------
  // Outcome

  /** The final result from the exit code and the captured numbers. */
  function Outcome(exitCode: int, mirrored: Option<nat>, images: Option<nat>): (r: MirrorResult)
    ensures exitCode != 0 ==> r == NOTHING
    ensures exitCode == 0 && images.Some? && mirrored.Some? ==> r == MirrorResult(images.value, mirrored.value)
    ensures images.None? || mirrored.None? ==> r == NOTHING
  {
    if exitCode != 0 then NOTHING
    else if images.Some? && mirrored.Some? then MirrorResult(images.value, mirrored.value)
    else NOTHING
  }

  /** A run succeeds exactly when the tool exited 0 and reported a complete,
      non-empty result line. */
  lemma OutcomeSuccessIff(exitCode: int, mirrored: Option<nat>, images: Option<nat>)
    ensures Outcome(exitCode, mirrored, images).Success()
        <==> exitCode == 0 && images.Some? && mirrored.Some? && images.value != 0 && images.value == mirrored.value
  {
  }

  // ---------------------------------------------------------------------------
  // Running the tool

  /** `run_command`: a command that cannot be launched gives exit code 1 and
      nothing captured; otherwise the drain runs over the tool's output and the
      tool's exit code is returned with whatever was captured. The process
      itself is the parameters `launched`, `events` and `exitCode`. */
  method RunCommand(cmd: seq<string>, hasBar: bool, launched: bool, events: seq<Read>, exitCode: int)
    returns (code: int, mirrored: Option<nat>, images: Option<nat>, ticks: nat)
    ensures !launched ==> code == 1 && mirrored.None? && images.None? && ticks == 0
    ensures launched ==> code == exitCode
    ensures launched ==> match LastResult(AllData(Delivered({Stdout, Stderr}, events)))
      case Some(rc) => mirrored == Some(rc.mirrored) && images == Some(rc.images)
      case None => mirrored.None? && images.None?
    ensures launched ==> ticks == if hasBar then Copies(AllData(Delivered({Stdout, Stderr}, events))) else 0
  {
    if !launched {
      return 1, None, None, 0;
    }
    var p := new StreamProcessor(hasBar);
    p.ProcessStreams(events);
    DrainResult(InitialState(), hasBar, events);
    DrainTicks(InitialState(), hasBar, events);
    code, mirrored, images, ticks := exitCode, p.mirrored, p.images, p.ticks;
  }

  /** `mirror_package`. The configuration's image count, whether the tool
      could be launched, its output and its exit code are parameters. */
  method MirrorPackage(package: string, version: string, arch: string, mode: string, target: string,
                       flag: bool, totalImages: nat, launched: bool, events: seq<Read>, exitCode: int)
    returns (r: MirrorResult, executed: Option<seq<string>>)
    ensures executed.Some? <==> '.' in version && flag && totalImages > 0 && KnownMode(mode)
    ensures executed.Some? ==> executed == BuildCommand(mode, ConfigPath(package, MajorMinor(version).value, arch, version),
                                                       package, arch, version, target)
    ensures '.' !in version || !flag || totalImages == 0 ==> r == NOTHING
    ensures !KnownMode(mode) ==> r == NOTHING
    ensures !launched || exitCode != 0 ==> r == NOTHING
    ensures r != NOTHING ==> match LastResult(AllData(Delivered({Stdout, Stderr}, events)))
      case Some(rc) => r == MirrorResult(rc.images, rc.mirrored)
      case None => false
    ensures '.' in version && flag && totalImages > 0 && KnownMode(mode) && launched && exitCode == 0 ==>
      r == match LastResult(AllData(Delivered({Stdout, Stderr}, events)))
        case Some(rc) => MirrorResult(rc.images, rc.mirrored)
        case None => NOTHING
  {
    executed := None;
    var mm := MajorMinor(version);
    if mm.None? {
      return NOTHING, executed;
    }
    var path := ConfigPath(package, mm.value, arch, version);
    if !flag {
      return NOTHING, executed;
    }
    if totalImages == 0 {
      return NOTHING, executed;
    }
    var cmd := BuildCommand(mode, path, package, arch, version, target);
    if cmd.None? {
      return NOTHING, executed;
    }
    executed := cmd;
    var code, mirrored, images, ticks := RunCommand(cmd.value, true, launched, events, exitCode);
    r := Outcome(code, mirrored, images);
  }
}
