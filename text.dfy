/** String helpers shared by both scripts: Python's notions of whitespace,
    digits, lower-casing, substring search and `str.split`. */
module Text {

  datatype Option<T> = None | Some(value: T)

  /** Python's `str.isspace()`, which is also what `\s` and `rstrip()` use on str. */
  predicate IsSpace(c: char) {
    c == ' ' || ('\t' <= c <= '\r') || ('\U{1C}' <= c <= '\U{1F}')
    || c == '\U{85}' || c == '\U{A0}' || c == '\U{1680}'
    || ('\U{2000}' <= c <= '\U{200A}') || c == '\U{2028}' || c == '\U{2029}'
    || c == '\U{202F}' || c == '\U{205F}' || c == '\U{3000}'
  }

  /** `\d`, restricted to ASCII digits. */
  predicate IsDigit(c: char) {
    '0' <= c <= '9'
  }

  predicate AllDigits(s: string) {
    forall i | 0 <= i < |s| :: IsDigit(s[i])
  }

  predicate AllSpace(s: string) {
    forall i | 0 <= i < |s| :: IsSpace(s[i])
  }

  /** ASCII lower-casing of one character. */
  function Lower(c: char): char {
    if 'A' <= c <= 'Z' then (c as int + 32) as char else c
  }

  function LowerString(s: string): (r: string)
    ensures |r| == |s|
    ensures forall i | 0 <= i < |s| :: r[i] == Lower(s[i])
  {
    seq(|s|, i requires 0 <= i < |s| => Lower(s[i]))
  }

  /** `int(ds)` for a non-empty run of ASCII digits. */
  function DecimalValue(ds: string): nat
    requires AllDigits(ds)
  {
    if ds == [] then 0
    else 10 * DecimalValue(ds[..|ds| - 1]) + (ds[|ds| - 1] as int - '0' as int)
  }

  /** `p` occurs in `s` starting at index `k`. */
  predicate OccursAt(s: string, p: string, k: int) {
    0 <= k && k + |p| <= |s| && s[k..k + |p|] == p
  }

  /** Python's `p in s`. */
  predicate Contains(s: string, p: string) {
    exists k | 0 <= k <= |s| - |p| :: OccursAt(s, p, k)
  }

  /** Python's `s.startswith(p)`. */
  predicate StartsWith(s: string, p: string) {
    OccursAt(s, p, 0)
  }

  /** `k` is the first occurrence of `p` in `s`. */
  predicate FirstOccurrence(s: string, p: string, k: int) {
    OccursAt(s, p, k) && forall j | 0 <= j < k :: !OccursAt(s, p, j)
  }

  /** Left-to-right search for `p` in `s`, starting at `from` (`s.find(p, from)`). */
  function IndexOf(s: string, p: string, from: nat): (r: Option<nat>)
    requires from <= |s|
    ensures r.Some? ==> from <= r.value && OccursAt(s, p, r.value)
    ensures r.Some? ==> forall j | from <= j < r.value :: !OccursAt(s, p, j)
    ensures r.None? ==> forall j | from <= j :: !OccursAt(s, p, j)
    decreases |s| - from
  {
    if from + |p| > |s| then None
    else if OccursAt(s, p, from) then Some(from)
    else IndexOf(s, p, from + 1)
  }

  /** Python's `s.rstrip()`: drops the trailing run of whitespace. */
  function RStrip(s: string): (r: string)
    ensures r <= s
    ensures forall i | |r| <= i < |s| :: IsSpace(s[i])
    ensures r == [] || !IsSpace(r[|r| - 1])
    decreases |s|
  {
    if s != [] && IsSpace(s[|s| - 1]) then RStrip(s[..|s| - 1]) else s
  }

  /** End of the maximal run of characters satisfying `P` that starts at `i`. */
  function RunEnd(s: string, i: nat, P: char -> bool): (r: nat)
    requires i <= |s|
    ensures i <= r <= |s|
    ensures r == |s| || !P(s[r])
    decreases |s| - i
  {
    if i < |s| && P(s[i]) then RunEnd(s, i + 1, P) else i
  }

  /** Every character of the run satisfies `P`. */
  lemma {:induction false} RunEndAll(s: string, i: nat, P: char -> bool)
    requires i <= |s|
    ensures forall k | i <= k < RunEnd(s, i, P) :: P(s[k])
    decreases |s| - i
  {
    if i < |s| && P(s[i]) {
      RunEndAll(s, i + 1, P);
    }
  }

  lemma DigitRun(s: string, i: nat)
    requires i <= |s|
    ensures AllDigits(s[i..RunEnd(s, i, IsDigit)])
  {
    var r := RunEnd(s, i, IsDigit);
    RunEndAll(s, i, IsDigit);
    forall k | 0 <= k < r - i ensures IsDigit(s[i..r][k]) {
      assert s[i..r][k] == s[i + k];
    }
  }

  lemma SpaceRun(s: string, i: nat)
    requires i <= |s|
    ensures AllSpace(s[i..RunEnd(s, i, IsSpace)])
  {
    var r := RunEnd(s, i, IsSpace);
    RunEndAll(s, i, IsSpace);
    forall k | 0 <= k < r - i ensures IsSpace(s[i..r][k]) {
      assert s[i..r][k] == s[i + k];
    }
  }

  /** A run that stops at a character outside `P` is the maximal run. */
  lemma {:induction false} RunEndUnique(s: string, i: nat, m: nat, P: char -> bool)
    requires i <= m <= |s|
    requires forall k | i <= k < m :: P(s[k])
    requires m == |s| || !P(s[m])
    ensures RunEnd(s, i, P) == m
    decreases m - i
  {
    if i < m {
      RunEndUnique(s, i + 1, m, P);
    }
  }

  /** Index of the first `c` in `s`. */
  function FirstIndex(s: string, c: char): (k: nat)
    requires c in s
    ensures k < |s| && s[k] == c && c !in s[..k]
  {
    if s[0] == c then 0
    else
      assert c in s[1..] by { var j :| 0 <= j < |s| && s[j] == c; assert s[1..][j - 1] == c; }
      var k := 1 + FirstIndex(s[1..], c);
      assert s[..k] == [s[0]] + s[1..][..k - 1];
      k
  }

  /** Concatenation of `parts` with `sep` between neighbours (`sep.join(parts)`). */
  function Join(parts: seq<string>, sep: char): string
    requires |parts| >= 1
  {
    if |parts| == 1 then parts[0] else parts[0] + [sep] + Join(parts[1..], sep)
  }

  /** Python's `s.split(sep)` for a one-character separator. */
  function Split(s: string, sep: char): (parts: seq<string>)
    ensures |parts| >= 1
    ensures forall i | 0 <= i < |parts| :: sep !in parts[i]
    ensures Join(parts, sep) == s
    decreases |s|
  {
    if sep in s then
      var k := FirstIndex(s, sep);
      var rest := Split(s[k + 1..], sep);
      assert s == s[..k] + [sep] + s[k + 1..];
      [s[..k]] + rest
    else [s]
  }

  /** `Split` is the only way of cutting `s` at `sep` into separator-free parts. */
  lemma {:induction false} SplitUnique(parts: seq<string>, s: string, sep: char)
    requires |parts| >= 1
    requires forall i | 0 <= i < |parts| :: sep !in parts[i]
    requires Join(parts, sep) == s
    ensures Split(s, sep) == parts
    decreases |parts|
  {
    if |parts| == 1 {
      assert s == parts[0];
    } else {
      var rest := Join(parts[1..], sep);
      assert s == parts[0] + [sep] + rest;
      assert s[|parts[0]|] == sep;
      var k := FirstIndex(s, sep);
      assert s[..|parts[0]|] == parts[0];
      assert k == |parts[0]|;
      assert s[k + 1..] == rest;
      SplitUnique(parts[1..], rest, sep);
    }
  }

  /** `s.split(sep)` has a single part exactly when `sep` does not occur in `s`. */
  lemma SplitSingleIff(s: string, sep: char)
    ensures |Split(s, sep)| == 1 <==> sep !in s
  {
    var parts := Split(s, sep);
    if |parts| >= 2 {
      assert Join(parts, sep) == parts[0] + [sep] + Join(parts[1..], sep);
      assert s[|parts[0]|] == sep;
    }
  }

  /** Splitting at the first separator: the part before it comes first. */
  lemma SplitAtFirst(x: string, y: string, sep: char)
    requires sep !in x
    ensures Split(x + [sep] + y, sep) == [x] + Split(y, sep)
  {
    var s := x + [sep] + y;
    var k := FirstIndex(s, sep);
    assert s[..|x|] == x;
    assert s[|x|] == sep;
    assert k == |x|;
    assert s[k + 1..] == y;
  }
}
