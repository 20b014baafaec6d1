/** Version strings and package paths, as both scripts derive them: the
    `major.minor` of a version, the file version of convert.py, and the
    `packages/...yaml` path that convert.py writes and mirror-images.py reads. */
module Versions {
  import opened Text

  /** `major.minor` from the first two dot-separated components of the version;
      `None` when the version has fewer than two. */
  function MajorMinor(version: string): (r: Option<string>)
    ensures r.None? <==> '.' !in version
  {
    SplitSingleIff(version, '.');
    var parts := Split(version, '.');
    if |parts| < 2 then None else Some(parts[0] + "." + parts[1])
  }

  /** A version `a.b` or `a.b.rest` has major.minor `a.b`, whatever `rest` holds. */
  lemma MajorMinorOf(a: string, b: string, tail: string)
    requires '.' !in a && '.' !in b
    requires tail == [] || tail[0] == '.'
    ensures MajorMinor(a + "." + b + tail) == Some(a + "." + b)
  {
    var v := a + "." + b + tail;
    assert v == a + ['.'] + (b + tail);
    SplitAtFirst(a, b + tail, '.');
    FirstPartBeforeDot(b, tail);
    var parts := Split(v, '.');
    assert |parts| >= 2 && parts[0] == a && parts[1] == b;
  }

  lemma FirstPartBeforeDot(b: string, tail: string)
    requires '.' !in b
    requires tail == [] || tail[0] == '.'
    ensures Split(b + tail, '.')[0] == b
  {
    if tail == [] {
      assert b + tail == b;
    } else {
      var y := tail[1..];
      assert tail == ['.'] + y;
      assert b + tail == b + ['.'] + y;
      SplitAtFirst(b, y, '.');
    }
  }

  /** `packages/{package}/{major_minor}/{arch}/{package}-{version}-{arch}.yaml` */
  function ConfigPath(package: string, majorMinor: string, arch: string, version: string): string {
    "packages/" + package + "/" + majorMinor + "/" + arch + "/" + package + "-" + version + "-" + arch + ".yaml"
  }

  /** `case_version.split('+')[0]`: the version without its build metadata. */
  function FileVersion(version: string): (r: string)
    ensures r <= version && '+' !in r
    ensures |r| < |version| ==> version[|r|] == '+'
    ensures r == version <==> '+' !in version
  {
    var parts := Split(version, '+');
    if '+' in version then
      var k := FirstIndex(version, '+');
      assert version == version[..k] + ['+'] + version[k + 1..];
      SplitAtFirst(version[..k], version[k + 1..], '+');
      parts[0]
    else
      SplitSingleIff(version, '+');
      assert Join(parts, '+') == parts[0];
      parts[0]
  }
}
