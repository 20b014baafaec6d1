/** The per-line classifiers of the mirror driver (scripts/mirror-images.py):
    the duplicate-prefix stripper, the result-line and "Success copying"
    recognisers, and the noise filter. The regular expressions of the source
    are written out as scanners, and each is proved to agree with a
    declarative description of what the regular expression accepts. */
module LogLines {
  import opened Text

  // ---------------------------------------------------------------------------
  // Timestamp: `\d{4}/\d{2}/\d{2}\s+\d{2}:\d{2}:\d{2}`

  predicate DigitsAt(s: string, k: int, n: nat) {
    0 <= k && k + n <= |s| && AllDigits(s[k..k + n])
  }

  /** `\d{4}/\d{2}/\d{2}` at `k`. */
  predicate DateAt(s: string, k: int) {
    DigitsAt(s, k, 4) && k + 10 <= |s| && s[k + 4] == '/'
    && DigitsAt(s, k + 5, 2) && s[k + 7] == '/' && DigitsAt(s, k + 8, 2)
  }

  /** `\d{2}:\d{2}:\d{2}` at `m`. */
  predicate TimeAt(s: string, m: int) {
    DigitsAt(s, m, 2) && m + 8 <= |s| && s[m + 2] == ':'
    && DigitsAt(s, m + 3, 2) && s[m + 5] == ':' && DigitsAt(s, m + 6, 2)
  }

  /** The timestamp regex matches at `k`, with its `\s+` ending at `m`. */
  predicate TimestampSplit(s: string, k: int, m: int) {
    DateAt(s, k) && k + 10 < m <= |s| && AllSpace(s[k + 10..m]) && TimeAt(s, m)
  }

  /** Scanner for the timestamp regex at `k`: the `\s+` is taken greedily. */
  predicate TimestampAt(s: string, k: nat) {
    DateAt(s, k) && var m := RunEnd(s, k + 10, IsSpace); k + 10 < m && TimeAt(s, m)
  }

  /** The greedy scanner accepts exactly where the regex matches. */
  lemma TimestampAtIff(s: string, k: nat)
    ensures TimestampAt(s, k) <==> exists m :: TimestampSplit(s, k, m)
  {
    if TimestampAt(s, k) {
      var m := RunEnd(s, k + 10, IsSpace);
      SpaceRun(s, k + 10);
      assert TimestampSplit(s, k, m);
    }
    if m :| TimestampSplit(s, k, m) {
      assert s[k + 10..m][m - (k + 10) - 1] == s[m - 1];
      assert forall i | k + 10 <= i < m :: IsSpace(s[i]) by {
        forall i | k + 10 <= i < m ensures IsSpace(s[i]) {
          assert s[k + 10..m][i - (k + 10)] == s[i];
        }
      }
      assert IsDigit(s[m..m + 2][0]);
      RunEndUnique(s, k + 10, m, IsSpace);
    }
  }

  /** `re.match(r'^.*?<timestamp>', s[k..])`: the lazy `.*?` moves the
      timestamp's start one character at a time and cannot cross a newline. */
  predicate TimestampFrom(s: string, k: nat)
    decreases |s| - k
  {
    k <= |s| && (TimestampAt(s, k) || (k < |s| && s[k] != '\n' && TimestampFrom(s, k + 1)))
  }

  predicate HasTimestamp(line: string) {
    TimestampFrom(line, 0)
  }

  lemma {:induction false} TimestampFromIff(s: string, k: nat)
    requires k <= |s|
    ensures TimestampFrom(s, k) <==> exists j | k <= j <= |s| :: '\n' !in s[k..j] && TimestampAt(s, j)
    decreases |s| - k
  {
    if k < |s| {
      TimestampFromIff(s, k + 1);
      if j :| k + 1 <= j <= |s| && '\n' !in s[k + 1..j] && TimestampAt(s, j) {
        if s[k] != '\n' {
          assert s[k..j] == [s[k]] + s[k + 1..j];
        }
      }
      if j :| k <= j <= |s| && '\n' !in s[k..j] && TimestampAt(s, j) {
        if j > k {
          assert s[k..j][0] == s[k];
          assert s[k + 1..j] == s[k..j][1..];
        }
      }
    }
  }

  /** The line carries a timestamp exactly when the regex `^.*?<timestamp>`
      matches: some timestamp starts on the first line of `line`. */
  lemma HasTimestampIff(line: string)
    ensures HasTimestamp(line) <==>
      exists k, m | 0 <= k <= |line| :: '\n' !in line[..k] && TimestampSplit(line, k, m)
  {
    TimestampFromIff(line, 0);
    if HasTimestamp(line) {
      var k :| 0 <= k <= |line| && '\n' !in line[0..k] && TimestampAt(line, k);
      TimestampAtIff(line, k);
      var m :| TimestampSplit(line, k, m);
      assert line[..k] == line[0..k];
    }
    if k, m :| 0 <= k <= |line| && '\n' !in line[..k] && TimestampSplit(line, k, m) {
      TimestampAtIff(line, k);
      assert line[..k] == line[0..k];
    }
  }

  // ---------------------------------------------------------------------------
  // strip_log_prefix

  const LOG_SEP: string := ": "

  /** `line` is stripped at `k`: it carries a timestamp, `k` is the first
      `": "` and the text before it contains `[`. */
  predicate StripsAt(line: string, k: int) {
    HasTimestamp(line) && FirstOccurrence(line, LOG_SEP, k) && '[' in line[..k]
  }

  /** Removes a duplicated `<timestamp> [LEVEL] : ` prefix from a tool line. */
  function StripLogPrefix(line: string): string {
    if HasTimestamp(line) then
      match IndexOf(line, LOG_SEP, 0)
      case Some(k) => if '[' in line[..k] then line[k + 2..] else line
      case None => line
    else line
  }

  /** The line is cut after the qualifying `": "` when there is one, and
      returned unchanged otherwise. */
  lemma StripLogPrefixSpec(line: string)
    ensures |StripLogPrefix(line)| <= |line|
    ensures forall k | StripsAt(line, k) :: StripLogPrefix(line) == line[k + 2..]
    ensures (forall k | 0 <= k <= |line| :: !StripsAt(line, k)) ==> StripLogPrefix(line) == line
  {
    if HasTimestamp(line) {
      match IndexOf(line, LOG_SEP, 0)
      case Some(k) =>
        if '[' in line[..k] {
          assert StripsAt(line, k);
        }
      case None =>
    }
  }

  /** The line changes exactly when some cut point qualifies. */
  lemma StripLogPrefixChanges(line: string)
    ensures StripLogPrefix(line) != line <==> exists k :: StripsAt(line, k)
  {
    StripLogPrefixSpec(line);
    if k :| StripsAt(line, k) {
      assert |StripLogPrefix(line)| == |line| - k - 2;
    }
  }

  /** When the line is stripped at `k`, it is `prefix + ": " + result` with
      no `": "` inside `prefix`. */
  lemma StripLogPrefixShape(line: string, k: int)
    requires StripsAt(line, k)
    ensures line == line[..k] + LOG_SEP + StripLogPrefix(line)
    ensures !Contains(line[..k], LOG_SEP)
  {
    StripLogPrefixAt(line, k);
    CutAt(line, k);
    PrefixHasNoSep(line, k);
  }

  lemma StripLogPrefixAt(line: string, k: int)
    requires StripsAt(line, k)
    ensures StripLogPrefix(line) == line[k + 2..]
  {
    StripLogPrefixSpec(line);
  }

  lemma CutAt(line: string, k: int)
    requires OccursAt(line, LOG_SEP, k)
    ensures line == line[..k] + LOG_SEP + line[k + 2..]
  {
    assert line == line[..k] + line[k..k + 2] + line[k + 2..];
  }

  lemma PrefixHasNoSep(line: string, k: int)
    requires FirstOccurrence(line, LOG_SEP, k)
    ensures !Contains(line[..k], LOG_SEP)
  {
    if Contains(line[..k], LOG_SEP) {
      var j :| 0 <= j <= k - 2 && OccursAt(line[..k], LOG_SEP, j);
      assert line[..k][j..j + 2] == line[j..j + 2];
      assert OccursAt(line, LOG_SEP, j);
    }
  }

  // ---------------------------------------------------------------------------
  // Result line: `(\d+)\s+/\s+(\d+)\s+additional images mirrored successfully`

  const RESULT_PHRASE: string := "additional images mirrored successfully"

  /** The two numbers of a result line: group 1 is `mirrored`, group 2 `images`. */
  datatype ResultCount = ResultCount(mirrored: nat, images: nat)

  /** The result regex matches at `i`, its five variable-width pieces ending
      at `a` (digits), `b` (spaces), `c` (spaces after `/`), `d` (digits)
      and `e` (spaces before the phrase). */
  predicate ResultMatchAt(s: string, i: int, a: int, b: int, c: int, d: int, e: int) {
    0 <= i < a < b < |s| && b + 1 < c < d < e <= |s|
    && AllDigits(s[i..a]) && AllSpace(s[a..b]) && s[b] == '/'
    && AllSpace(s[b + 1..c]) && AllDigits(s[c..d]) && AllSpace(s[d..e])
    && OccursAt(s, RESULT_PHRASE, e)
  }

  /** Greedy scanner for the result regex anchored at `i`. */
  function ScanResultAt(s: string, i: nat): Option<ResultCount>
    requires i <= |s|
  {
    var a := RunEnd(s, i, IsDigit);
    var b := RunEnd(s, a, IsSpace);
    if a == i || b == a || b == |s| || s[b] != '/' then None
    else
      var c := RunEnd(s, b + 1, IsSpace);
      var d := RunEnd(s, c, IsDigit);
      var e := RunEnd(s, d, IsSpace);
      if c == b + 1 || d == c || e == d || !OccursAt(s, RESULT_PHRASE, e) then None
      else
        DigitRun(s, i);
        DigitRun(s, c);
        Some(ResultCount(DecimalValue(s[i..a]), DecimalValue(s[c..d])))
  }

  lemma AllOfSlice(s: string, lo: int, hi: int, P: char -> bool)
    requires 0 <= lo <= hi <= |s|
    requires forall k | 0 <= k < hi - lo :: P(s[lo..hi][k])
    ensures forall k | lo <= k < hi :: P(s[k])
  {
    forall k | lo <= k < hi ensures P(s[k]) {
      assert s[lo..hi][k - lo] == s[k];
    }
  }

  /** Whatever the scanner reports is a regex match with those groups. */
  lemma ScanResultSound(s: string, i: nat)
    requires i <= |s| && ScanResultAt(s, i).Some?
    ensures exists a, b, c, d, e ::
      (ResultMatchAt(s, i, a, b, c, d, e)
       && ScanResultAt(s, i).value == ResultCount(DecimalValue(s[i..a]), DecimalValue(s[c..d])))
  {
    var a := RunEnd(s, i, IsDigit);
    var b := RunEnd(s, a, IsSpace);
    var c := RunEnd(s, b + 1, IsSpace);
    var d := RunEnd(s, c, IsDigit);
    var e := RunEnd(s, d, IsSpace);
    DigitRun(s, i);
    SpaceRun(s, a);
    SpaceRun(s, b + 1);
    DigitRun(s, c);
    SpaceRun(s, d);
    assert ResultMatchAt(s, i, a, b, c, d, e);
  }

  /** Every regex match at `i` is found by the scanner, with the same groups:
      the match at a position, and so its groups, are unique. */
  lemma ScanResultComplete(s: string, i: nat, a: int, b: int, c: int, d: int, e: int)
    requires ResultMatchAt(s, i, a, b, c, d, e)
    ensures ScanResultAt(s, i) == Some(ResultCount(DecimalValue(s[i..a]), DecimalValue(s[c..d])))
  {
    assert s[e] == RESULT_PHRASE[0];
    assert IsSpace(s[a..b][0]) && IsDigit(s[c..d][0]) && IsSpace(s[d..e][0]);
    DigitRunEnds(s, i, a);
    SpaceRunEnds(s, a, b);
    SpaceRunEnds(s, b + 1, c);
    DigitRunEnds(s, c, d);
    SpaceRunEnds(s, d, e);
  }

  /** A maximal run of digits is the one the scanner takes. */
  lemma DigitRunEnds(s: string, lo: int, hi: int)
    requires 0 <= lo <= hi < |s| && AllDigits(s[lo..hi]) && !IsDigit(s[hi])
    ensures RunEnd(s, lo, IsDigit) == hi
  {
    AllOfSlice(s, lo, hi, IsDigit);
    RunEndUnique(s, lo, hi, IsDigit);
  }

  /** A maximal run of whitespace is the one the scanner takes. */
  lemma SpaceRunEnds(s: string, lo: int, hi: int)
    requires 0 <= lo <= hi < |s| && AllSpace(s[lo..hi]) && !IsSpace(s[hi])
    ensures RunEnd(s, lo, IsSpace) == hi
  {
    AllOfSlice(s, lo, hi, IsSpace);
    RunEndUnique(s, lo, hi, IsSpace);
  }

  /** Leftmost position at or after `from` where the result regex matches. */
  function ResultSearch(s: string, from: nat): (r: Option<nat>)
    requires from <= |s|
    ensures r.Some? ==> from <= r.value <= |s|
    decreases |s| - from
  {
    if ScanResultAt(s, from).Some? then Some(from)
    else if from == |s| then None
    else ResultSearch(s, from + 1)
  }

  /** The search reports the leftmost matching position, or `None` when the
      regex matches nowhere from `from` on. */
  lemma {:induction false} ResultSearchSpec(s: string, from: nat)
    requires from <= |s|
    ensures var r := ResultSearch(s, from);
      && (r.Some? ==> ScanResultAt(s, r.value).Some?)
      && (r.Some? ==> forall j | from <= j < r.value :: ScanResultAt(s, j).None?)
      && (r.None? ==> forall j | from <= j <= |s| :: ScanResultAt(s, j).None?)
    decreases |s| - from
  {
    if ScanResultAt(s, from).None? && from < |s| {
      var r := ResultSearch(s, from + 1);
      assert ResultSearch(s, from) == r;
      ResultSearchSpec(s, from + 1);
      var hi := if r.Some? then r.value else |s| + 1;
      forall j | from <= j < hi ensures ScanResultAt(s, j).None? {
        if j == from {
        }
      }
    }
  }

  /** The scan `re.search` performs: try each start position in turn and
      report the groups of the first match. */
  function ResultFrom(s: string, from: nat): Option<ResultCount>
    requires from <= |s|
    decreases |s| - from
  {
    var here := ScanResultAt(s, from);
    if here.Some? || from == |s| then here else ResultFrom(s, from + 1)
  }

  /** The scan reports the groups of the leftmost match. */
  lemma {:induction false} ResultFromLeftmost(s: string, from: nat)
    requires from <= |s|
    ensures ResultFrom(s, from) == match ResultSearch(s, from)
      case Some(i) => ScanResultAt(s, i)
      case None => None
    decreases |s| - from
  {
    if ScanResultAt(s, from).None? && from < |s| {
      ResultFromLeftmost(s, from + 1);
      assert ResultSearch(s, from) == ResultSearch(s, from + 1);
    }
  }

  /** `re.search` of the result regex: the groups of the leftmost match. */
  function FindResult(line: string): Option<ResultCount> {
    ResultFrom(line, 0)
  }

  /** A line that reads `<m> / <n> additional images mirrored successfully`,
      with at least one blank around the slash, yields `mirrored = m` and
      `images = n`; `3/10 ...` is not a result line. */
  lemma FindResultSpaced(s: string)
    requires s == "48 / 50 " + RESULT_PHRASE
    ensures FindResult(s) == Some(ResultCount(48, 50))
  {
    assert s[..8] == "48 / 50 ";
    assert s[8..] == RESULT_PHRASE;
    assert OccursAt(s, RESULT_PHRASE, 8);
    assert s[0..2] == "48" && s[5..7] == "50";
    FindResultAtStart(s, 2, 3, 5, 7, 8);
  }

  /** A match at the start of the line is the one `re.search` reports. */
  lemma FindResultAtStart(s: string, a: int, b: int, c: int, d: int, e: int)
    requires ResultMatchAt(s, 0, a, b, c, d, e) && s[0..a] == "48" && s[c..d] == "50"
    ensures FindResult(s) == Some(ResultCount(48, 50))
  {
    ScanResultComplete(s, 0, a, b, c, d, e);
    assert "48"[..1] == "4" && "50"[..1] == "5";
    assert DecimalValue("4") == 4 && DecimalValue("5") == 5 by { assert "4"[..0] == "" && "5"[..0] == ""; }
  }

  lemma FindResultUnspaced(t: string)
    requires t == "3/10 " + RESULT_PHRASE
    ensures FindResult(t).None?
  {
    assert '/' !in RESULT_PHRASE;
    forall j | 0 <= j <= |t| ensures ScanResultAt(t, j).None? {
      if ScanResultAt(t, j).Some? {
        ScanResultSound(t, j);
        assert false;
      }
    }
    ResultFromLeftmost(t, 0);
    ResultSearchSpec(t, 0);
  }

  // ---------------------------------------------------------------------------
  // Per-image copy: `Success copying .+ ➡️`

  const SUCCESS_PREFIX: string := "Success copying "
  /** A blank, U+27A1 (black rightwards arrow) and U+FE0F (emoji presentation). */
  const ARROW: string := " \U{27A1}\U{FE0F}"

  /** The copy regex matches from `i`, with `.+` spanning `[i + 16, j)`. */
  predicate CopyMatchAt(s: string, i: int, j: int) {
    OccursAt(s, SUCCESS_PREFIX, i) && i + |SUCCESS_PREFIX| < j && OccursAt(s, ARROW, j)
    && '\n' !in s[i + |SUCCESS_PREFIX|..j]
  }

  /** Some arrow starts at or after `j` with no newline in between. */
  predicate ArrowFrom(s: string, j: nat)
    decreases |s| - j
  {
    OccursAt(s, ARROW, j) || (j < |s| && s[j] != '\n' && ArrowFrom(s, j + 1))
  }

  lemma {:induction false} ArrowFromIff(s: string, j: nat)
    ensures ArrowFrom(s, j) <==> exists j' | j <= j' <= |s| :: OccursAt(s, ARROW, j') && '\n' !in s[j..j']
    decreases |s| - j
  {
    if j < |s| {
      ArrowFromIff(s, j + 1);
      if j' :| j + 1 <= j' <= |s| && OccursAt(s, ARROW, j') && '\n' !in s[j + 1..j'] {
        if s[j] != '\n' {
          assert s[j..j'] == [s[j]] + s[j + 1..j'];
        }
      }
      if j' :| j <= j' <= |s| && OccursAt(s, ARROW, j') && '\n' !in s[j..j'] {
        if j' > j {
          assert s[j..j'][0] == s[j];
          assert s[j + 1..j'] == s[j..j'][1..];
        }
      }
    }
  }

  /** The copy regex matches starting at `i`. */
  predicate CopyAt(s: string, i: nat) {
    OccursAt(s, SUCCESS_PREFIX, i) && i + |SUCCESS_PREFIX| < |s|
    && s[i + |SUCCESS_PREFIX|] != '\n' && ArrowFrom(s, i + |SUCCESS_PREFIX| + 1)
  }

  /** `re.search` of the copy regex from position `i` on. */
  predicate CopySearch(s: string, i: nat)
    decreases |s| - i
  {
    i <= |s| && (CopyAt(s, i) || (i < |s| && CopySearch(s, i + 1)))
  }

  /** `re.search(r'Success copying .+ ➡️', line)` finds a match. */
  predicate IsImageCopied(line: string) {
    CopySearch(line, 0)
  }

  lemma CopyAtIff(s: string, i: nat)
    ensures CopyAt(s, i) <==> exists j | i < j <= |s| :: CopyMatchAt(s, i, j)
  {
    var n := |SUCCESS_PREFIX|;
    if CopyAt(s, i) {
      ArrowFromIff(s, i + n + 1);
      var j :| i + n + 1 <= j <= |s| && OccursAt(s, ARROW, j) && '\n' !in s[i + n + 1..j];
      assert s[i + n..j] == [s[i + n]] + s[i + n + 1..j];
      assert CopyMatchAt(s, i, j);
    }
    if j :| i < j <= |s| && CopyMatchAt(s, i, j) {
      assert s[i + n..j][0] == s[i + n];
      assert s[i + n + 1..j] == s[i + n..j][1..];
      ArrowFromIff(s, i + n + 1);
    }
  }

  lemma {:induction false} CopySearchIff(s: string, i: nat)
    ensures CopySearch(s, i) <==> exists i', j | i <= i' < j <= |s| :: CopyMatchAt(s, i', j)
    decreases |s| - i
  {
    CopyAtIff(s, i);
    if i < |s| {
      CopySearchIff(s, i + 1);
    }
  }

  /** The recogniser holds exactly when the regex finds a match somewhere. */
  lemma IsImageCopiedIff(line: string)
    ensures IsImageCopied(line) <==> exists i, j | 0 <= i < j <= |line| :: CopyMatchAt(line, i, j)
  {
    CopySearchIff(line, 0);
  }

  // ---------------------------------------------------------------------------
  // Noise filter

  const NOISE_PATTERNS: seq<string> := [
    "Hello, welcome to oc-mirror",
    "setting up the environment for you...",
    "using digest to pull, but tag only for mirroring"
  ]

  /** `any(p.lower() in line.lower() for p in NOISE_PATTERNS)`. */
  predicate IsNoise(line: string) {
    exists p | p in NOISE_PATTERNS :: Contains(LowerString(line), LowerString(p))
  }

  /** `p` matches `s` at `k` when case is ignored. */
  predicate MatchesIgnoreCaseAt(s: string, p: string, k: int) {
    0 <= k && k + |p| <= |s| && forall j | 0 <= j < |p| :: Lower(s[k + j]) == Lower(p[j])
  }

  /** A case-insensitive regex search for the literal `p` in `s` succeeds. */
  predicate ContainsIgnoreCase(s: string, p: string) {
    exists k | 0 <= k <= |s| - |p| :: MatchesIgnoreCaseAt(s, p, k)
  }

  /** Some noise pattern matches at `k`, ignoring case. */
  predicate AnyPatternAt(s: string, k: nat) {
    exists p | p in NOISE_PATTERNS :: MatchesIgnoreCaseAt(s, p, k)
  }

  /** `re.search` of the case-insensitive alternation from position `k` on. */
  predicate NoiseFrom(s: string, k: nat)
    decreases |s| - k
  {
    k <= |s| && (AnyPatternAt(s, k) || (k < |s| && NoiseFrom(s, k + 1)))
  }

  /** The compiled alternation of the noise patterns with `re.IGNORECASE` finds a match. */
  predicate IsNoiseIgnoreCase(line: string) {
    NoiseFrom(line, 0)
  }

  lemma {:induction false} NoiseFromIff(s: string, k: nat)
    ensures NoiseFrom(s, k) <==> exists p, j | p in NOISE_PATTERNS && k <= j <= |s| :: MatchesIgnoreCaseAt(s, p, j)
    decreases |s| - k
  {
    if k < |s| {
      NoiseFromIff(s, k + 1);
    }
  }

  /** Lower-casing both sides and searching is a case-insensitive search. */
  lemma LowerContainsIff(s: string, p: string)
    ensures Contains(LowerString(s), LowerString(p)) <==> ContainsIgnoreCase(s, p)
  {
    var l, lp := LowerString(s), LowerString(p);
    if Contains(l, lp) {
      var k :| 0 <= k <= |l| - |lp| && OccursAt(l, lp, k);
      assert l[k..k + |p|] == lp;
      forall j | 0 <= j < |p| ensures Lower(s[k + j]) == Lower(p[j]) {
        assert l[k..k + |p|][j] == l[k + j];
      }
      assert MatchesIgnoreCaseAt(s, p, k);
    }
    if ContainsIgnoreCase(s, p) {
      var k :| 0 <= k <= |s| - |p| && MatchesIgnoreCaseAt(s, p, k);
      assert l[k..k + |p|] == lp;
      assert OccursAt(l, lp, k);
    }
  }

  /** Under ASCII case folding, the lower-casing test of the per-pipe
      `stream_output` and the case-insensitive regex of the selector driver
      drop the same lines. */
  lemma NoiseFormsAgree(line: string)
    ensures IsNoise(line) <==> IsNoiseIgnoreCase(line)
  {
    NoiseFromIff(line, 0);
    forall p | p in NOISE_PATTERNS
      ensures Contains(LowerString(line), LowerString(p)) <==> ContainsIgnoreCase(line, p)
    {
      LowerContainsIff(line, p);
    }
  }
}
