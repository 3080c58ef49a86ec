/** Recognisers for the lines yt-dlp writes while downloading. Each regular
    expression of the stdout handler is written as a function that says
    whether the expression matches at a given index and what its capture
    group holds, and a leftmost search over all indices, as
    `String.prototype.match` does for a non-global expression. */
module OutputParser {
  import opened Wrappers
  import opened JsStrings

  const MergerMarker: string := "[Merger] Merging formats into"
  const MergerTargetPrefix: string := MergerMarker + "\""
  const DestinationPrefix: string := "[download] Destination: "

  predicate IsDigitOrDot(c: char) { c == '.' || IsDigit(c) }
  predicate IsDigitOrColon(c: char) { c == ':' || IsDigit(c) }
  /** ECMAScript's `\w`. */
  predicate IsWordChar(c: char) { ('a' <= c <= 'z') || ('A' <= c <= 'Z') || IsDigit(c) || c == '_' }
  predicate NotLineTerminator(c: char) { !IsLineTerminator(c) }

  /** The end of the longest run of characters of class `cls` starting at `i`. */
  function RunEnd(s: string, i: nat, cls: char -> bool): (j: nat)
    requires i <= |s|
    ensures i <= j <= |s|
    ensures forall k :: i <= k < j ==> cls(s[k])
    ensures j == |s| || !cls(s[j])
    decreases |s| - i
  {
    if i < |s| && cls(s[i]) then RunEnd(s, i + 1, cls) else i
  }

  /** The leftmost index in [from, n] at which `at` matches, and its result. */
  function FirstMatch<T>(n: nat, from: nat, at: nat -> Option<T>): (r: Option<T>)
    ensures r.Some? ==> exists i :: from <= i <= n && at(i) == r
    ensures r.None? ==> forall i :: from <= i <= n ==> at(i).None?
    decreases n + 1 - from
  {
    if from > n then None
    else if at(from).Some? then at(from)
    else FirstMatch(n, from + 1, at)
  }

  function Pow10(k: nat): (p: nat)
    ensures p >= 1
  {
    if k == 0 then 1 else 10 * Pow10(k - 1)
  }

  /** `parseFloat` of `whole.frac`. */
  function DecimalValue(whole: string, frac: string): (v: real)
    requires AllDigits(whole) && AllDigits(frac)
    ensures v >= 0.0
  {
    DigitsValue(whole) as real + DigitsValue(frac) as real / Pow10(|frac|) as real
  }

  /** `/(\d+\.?\d*)%/` anchored at `i`, with `parseFloat` of the capture.
      Greedy matching never needs to backtrack here: after the first digit
      run either `%` follows, or `.`, a digit run and `%`, or no match
      starts at `i`. */
  function PercentAt(s: string, i: nat): (r: Option<real>)
    ensures r.Some? ==> r.value >= 0.0
    ensures r.Some? ==> i < |s| && IsDigit(s[i]) && '%' in s[i..]
  {
    if i >= |s| || !IsDigit(s[i]) then None
    else
      var j := RunEnd(s, i, IsDigit);
      assert AllDigits(s[i..j]);
      if j < |s| && s[j] == '%' then
        assert s[j] == s[i..][j - i];
        Some(DigitsValue(s[i..j]) as real)
      else if j < |s| && s[j] == '.' then
        var k := RunEnd(s, j + 1, IsDigit);
        assert AllDigits(s[j + 1..k]);
        if k < |s| && s[k] == '%' then
          assert s[k] == s[i..][k - i];
          Some(DecimalValue(s[i..j], s[j + 1..k]))
        else None
      else None
  }

  /** `PercentAt` at every index. */
  function PercentMatcher(s: string): nat -> Option<real> {
    (i: nat) => PercentAt(s, i)
  }

  /** `output.match(/(\d+\.?\d*)%/)`, as a number. */
  function FindPercent(s: string): (r: Option<real>)
    ensures r.Some? ==> r.value >= 0.0 && '%' in s
  {
    FirstMatch(|s|, 0, PercentMatcher(s))
  }

  /** `/at\s+([\d.]+\w+\/s)/` anchored at `i`; the capture runs from the first
      character after the blanks up to and including `/s`. The `\w+` part
      either is the word run that follows the `[\d.]` run, or, when a
      non-word character follows that run, is taken back from its last
      digits. */
  function SpeedAt(s: string, i: nat): (r: Option<string>)
    ensures r.Some? ==> OccursAt(s, "at", i) && |r.value| >= 4 && EndsWith(r.value, "/s")
    ensures r.Some? ==> IsDigitOrDot(r.value[0])
  {
    if !OccursAt(s, "at", i) then None
    else
      var p := RunEnd(s, i + 2, IsJsWhitespace);
      if p == i + 2 then None
      else
        var j := RunEnd(s, p, IsDigitOrDot);
        if j == p then None
        else if j < |s| && IsWordChar(s[j]) then
          var k := RunEnd(s, j, IsWordChar);
          if OccursAt(s, "/s", k) then
            SpeedSlice(s, p, k);
            Some(s[p..k + 2])
          else None
        else if j - p >= 2 && IsDigit(s[j - 1]) && OccursAt(s, "/s", j) then
          SpeedSlice(s, p, j);
          Some(s[p..j + 2])
        else None
  }

  /** A capture from a digit or dot up to and including a `/s`. */
  lemma SpeedSlice(s: string, p: nat, e: nat)
    requires p + 2 <= e && OccursAt(s, "/s", e) && IsDigitOrDot(s[p])
    ensures |s[p..e + 2]| >= 4 && EndsWith(s[p..e + 2], "/s") && IsDigitOrDot(s[p..e + 2][0])
  {
    assert s[p..e + 2][|s[p..e + 2]| - 2..] == s[e..e + 2];
  }

  /** `SpeedAt` at every index. */
  function SpeedMatcher(s: string): nat -> Option<string> {
    (i: nat) => SpeedAt(s, i)
  }

  /** `output.match(/at\s+([\d.]+\w+\/s)/)[1]`. */
  function FindSpeed(s: string): (r: Option<string>)
    ensures r.Some? ==> Includes(s, "at") && |r.value| >= 4 && EndsWith(r.value, "/s")
  {
    FirstMatch(|s|, 0, SpeedMatcher(s))
  }

  /** `/ETA\s+([\d:]+)/` anchored at `i`. */
  function EtaAt(s: string, i: nat): (r: Option<string>)
    ensures r.Some? ==> OccursAt(s, "ETA", i) && r.value != [] && forall k :: 0 <= k < |r.value| ==> IsDigitOrColon(r.value[k])
  {
    if !OccursAt(s, "ETA", i) then None
    else
      var p := RunEnd(s, i + 3, IsJsWhitespace);
      if p == i + 3 then None
      else
        var j := RunEnd(s, p, IsDigitOrColon);
        if j == p then None else Some(s[p..j])
  }

  /** `EtaAt` at every index. */
  function EtaMatcher(s: string): nat -> Option<string> {
    (i: nat) => EtaAt(s, i)
  }

  /** `output.match(/ETA\s+([\d:]+)/)[1]`. */
  function FindEta(s: string): (r: Option<string>)
    ensures r.Some? ==> Includes(s, "ETA") && r.value != [] && forall k :: 0 <= k < |r.value| ==> IsDigitOrColon(r.value[k])
  {
    FirstMatch(|s|, 0, EtaMatcher(s))
  }

  /** `/\[download\] Destination: (.+)/` anchored at `i`: the rest of the line. */
  function DestinationAt(s: string, i: nat): (r: Option<string>)
    ensures r.Some? ==> OccursAt(s, DestinationPrefix, i) && r.value != []
    ensures r.Some? ==> forall k :: 0 <= k < |r.value| ==> !IsLineTerminator(r.value[k])
  {
    if !OccursAt(s, DestinationPrefix, i) then None
    else
      var p := i + |DestinationPrefix|;
      var j := RunEnd(s, p, NotLineTerminator);
      if j == p then None else Some(s[p..j])
  }

  /** `DestinationAt` at every index. */
  function DestinationMatcher(s: string): nat -> Option<string> {
    (i: nat) => DestinationAt(s, i)
  }

  function FindDestination(s: string): (r: Option<string>)
    ensures r.Some? ==> Includes(s, DestinationPrefix) && r.value != []
  {
    FirstMatch(|s|, 0, DestinationMatcher(s))
  }

  /** The last index in [lo, hi) holding a double quote. */
  function LastQuote(s: string, lo: nat, hi: nat): (r: Option<nat>)
    requires hi <= |s|
    ensures r.Some? ==> lo <= r.value < hi && s[r.value] == '"'
    ensures r.Some? ==> forall k :: r.value < k < hi ==> s[k] != '"'
    ensures r.None? ==> forall k :: lo <= k < hi ==> s[k] != '"'
    decreases hi
  {
    if hi <= lo then None
    else if s[hi - 1] == '"' then Some(hi - 1)
    else LastQuote(s, lo, hi - 1)
  }

  /** `/\[Merger\] Merging formats into "(.+)"/` anchored at `i`: the greedy
      `.+` reaches the last double quote on the line that leaves at least
      one character to capture. */
  function MergeTargetAt(s: string, i: nat): (r: Option<string>)
    ensures r.Some? ==> OccursAt(s, MergerTargetPrefix, i) && r.value != []
    ensures r.Some? ==> forall k :: 0 <= k < |r.value| ==> !IsLineTerminator(r.value[k])
  {
    if !OccursAt(s, MergerTargetPrefix, i) then None
    else
      var p := i + |MergerTargetPrefix|;
      var e := RunEnd(s, p, NotLineTerminator);
      match LastQuote(s, p + 1, e)
      case None => None
      case Some(q) => Some(s[p..q])
  }

  /** `MergeTargetAt` at every index. */
  function MergeTargetMatcher(s: string): nat -> Option<string> {
    (i: nat) => MergeTargetAt(s, i)
  }

  function FindMergeTarget(s: string): (r: Option<string>)
    ensures r.Some? ==> Includes(s, MergerTargetPrefix) && r.value != []
  {
    FirstMatch(|s|, 0, MergeTargetMatcher(s))
  }

  /** What one stdout chunk says, rule by rule. */
  datatype ChunkInfo = ChunkInfo(
    mergeStart: bool,             // '[Merger] Merging formats into'
    mergeDone: bool,              // 'Deleting original file' or '100% of'
    percent: Option<real>,
    speed: Option<string>,
    eta: Option<string>,
    destination: Option<string>,
    mergeTarget: Option<string>)

  function ParseChunk(output: string): (c: ChunkInfo)
    ensures c.mergeStart <==> Includes(output, MergerMarker)
    ensures c.mergeDone <==> Includes(output, "Deleting original file") || Includes(output, "100% of")
    ensures c.percent == FindPercent(output) && c.speed == FindSpeed(output) && c.eta == FindEta(output)
    ensures c.destination == FindDestination(output) && c.mergeTarget == FindMergeTarget(output)
    ensures c.mergeTarget.Some? ==> c.mergeStart
    ensures c.percent.Some? ==> c.percent.value >= 0.0
  {
    MergeTargetImpliesMarker(output);
    ChunkInfo(
      Includes(output, MergerMarker),
      Includes(output, "Deleting original file") || Includes(output, "100% of"),
      FindPercent(output),
      FindSpeed(output),
      FindEta(output),
      FindDestination(output),
      FindMergeTarget(output))
  }

  /** A merge-target line always carries the merge-start marker. */
  lemma MergeTargetImpliesMarker(s: string)
    ensures FindMergeTarget(s).Some? ==> Includes(s, MergerMarker)
  {
    if FindMergeTarget(s).Some? {
      var i :| OccursAt(s, MergerTargetPrefix, i);
      OccursOfPrefix(s, MergerMarker, "\"", i);
    }
  }

  // What each recogniser reads from a line of the usual shape.

  /** A run of class `cls` that stops at `j` ends at `j`. */
  lemma {:induction false} RunEndIs(s: string, i: nat, j: nat, cls: char -> bool)
    requires i <= j <= |s|
    requires forall k :: i <= k < j ==> cls(s[k])
    requires j == |s| || !cls(s[j])
    ensures RunEnd(s, i, cls) == j
    decreases j - i
  {
    if i < j {
      RunEndIs(s, i + 1, j, cls);
    }
  }

  /** The search answers with the first index that matches. */
  lemma {:induction false} FirstMatchAt<T>(n: nat, from: nat, at: nat -> Option<T>, i: nat)
    requires from <= i <= n && at(i).Some?
    requires forall j :: from <= j < i ==> at(j).None?
    ensures FirstMatch(n, from, at) == at(i)
    decreases i - from
  {
    if from < i {
      FirstMatchAt(n, from + 1, at, i);
    }
  }

  /** Each search answers with the first index that matches. */
  lemma FindPercentAt(s: string, i: nat, v: real)
    requires PercentAt(s, i) == Some(v)
    requires forall m :: 0 <= m < i ==> PercentAt(s, m).None?
    ensures FindPercent(s) == Some(v)
  {
    FirstMatchAt(|s|, 0, PercentMatcher(s), i);
  }

  lemma FindSpeedAt(s: string, i: nat, v: string)
    requires SpeedAt(s, i) == Some(v)
    requires forall m :: 0 <= m < i ==> SpeedAt(s, m).None?
    ensures FindSpeed(s) == Some(v)
  {
    FirstMatchAt(|s|, 0, SpeedMatcher(s), i);
  }

  lemma FindEtaAt(s: string, i: nat, v: string)
    requires EtaAt(s, i) == Some(v)
    requires forall m :: 0 <= m < i ==> EtaAt(s, m).None?
    ensures FindEta(s) == Some(v)
  {
    FirstMatchAt(|s|, 0, EtaMatcher(s), i);
  }

  lemma FindDestinationAt(s: string, i: nat, v: string)
    requires DestinationAt(s, i) == Some(v)
    requires forall m :: 0 <= m < i ==> DestinationAt(s, m).None?
    ensures FindDestination(s) == Some(v)
  {
    FirstMatchAt(|s|, 0, DestinationMatcher(s), i);
  }

  lemma FindMergeTargetAt(s: string, i: nat, v: string)
    requires MergeTargetAt(s, i) == Some(v)
    requires forall m :: 0 <= m < i ==> MergeTargetAt(s, m).None?
    ensures FindMergeTarget(s) == Some(v)
  {
    FirstMatchAt(|s|, 0, MergeTargetMatcher(s), i);
  }

  /** A pattern whose first character does not occur again in it, and that
      does not occur in `a`, does not occur in `a + p + rest` before `p`. */
  lemma NoEarlierOccurrence(a: string, p: string, rest: string, j: nat)
    requires !Includes(a, p) && p != []
    requires forall k :: 0 < k < |p| ==> p[k] != p[0]
    requires j < |a|
    ensures !OccursAt(a + p + rest, p, j)
  {
    var s := a + p + rest;
    if j + |p| <= |a| {
      assert a[j..j + |p|] == s[j..j + |p|];
      assert !OccursAt(a, p, j);
    } else {
      var k := |a| - j;
      assert s[|a|] == p[0] && p[k] != p[0];
      assert s[j..j + |p|][k] == s[|a|];
    }
  }

  predicate NotDigit(c: char) { !IsDigit(c) }
  predicate NotLineTerminatorOrQuote(c: char) { !IsLineTerminator(c) && c != '"' }

  lemma MiddleOfConcat(x: string, y: string, z: string)
    ensures (x + y + z)[|x|..|x| + |y|] == y
  {
  }

  lemma SliceOfConcat(x: string, r: string, lo: nat, hi: nat)
    requires lo <= hi <= |r|
    ensures (x + r)[|x| + lo..|x| + hi] == r[lo..hi]
  {
  }

  lemma CaptureSlice(pre: string, w: string, cap: string, b: string)
    ensures (pre + (w + cap + b))[|pre| + |w|..|pre| + |w| + |cap|] == cap
  {
    MiddleOfConcat(w, cap, b);
    SliceOfConcat(pre, w + cap + b, |w|, |w| + |cap|);
  }

  /** Where `s[lo..]` starts with `t`, every character of `t` is in `s`. */
  lemma SliceHolds(s: string, lo: nat, t: string, cls: char -> bool)
    requires lo + |t| <= |s| && s[lo..lo + |t|] == t
    requires forall k :: 0 <= k < |t| ==> cls(t[k])
    ensures forall m :: lo <= m < lo + |t| ==> cls(s[m])
  {
    forall m | lo <= m < lo + |t|
      ensures cls(s[m])
    {
      assert s[m] == s[lo..lo + |t|][m - lo];
    }
  }

  /** A pattern absent from `a` whose head does not recur in it is absent
      from `a + p + rest` everywhere before `p`. */
  lemma OccurrenceAbsentBefore(a: string, p: string, rest: string)
    requires !Includes(a, p) && p != []
    requires forall k :: 0 < k < |p| ==> p[k] != p[0]
    ensures forall m :: 0 <= m < |a| ==> !OccursAt(a + p + rest, p, m)
  {
    forall m | 0 <= m < |a|
      ensures !OccursAt(a + p + rest, p, m)
    {
      NoEarlierOccurrence(a, p, rest, m);
    }
  }

  lemma PercentAbsentBefore(s: string, i: nat)
    requires forall m :: 0 <= m < i ==> m < |s| && NotDigit(s[m])
    ensures forall m :: 0 <= m < i ==> PercentAt(s, m).None?
  {
  }

  lemma SpeedAbsentBefore(s: string, i: nat)
    requires forall m :: 0 <= m < i ==> !OccursAt(s, "at", m)
    ensures forall m :: 0 <= m < i ==> SpeedAt(s, m).None?
  {
  }

  lemma EtaAbsentBefore(s: string, i: nat)
    requires forall m :: 0 <= m < i ==> !OccursAt(s, "ETA", m)
    ensures forall m :: 0 <= m < i ==> EtaAt(s, m).None?
  {
  }

  lemma DestinationAbsentBefore(s: string, i: nat)
    requires forall m :: 0 <= m < i ==> !OccursAt(s, DestinationPrefix, m)
    ensures forall m :: 0 <= m < i ==> DestinationAt(s, m).None?
  {
  }

  lemma MergeTargetAbsentBefore(s: string, i: nat)
    requires forall m :: 0 <= m < i ==> !OccursAt(s, MergerTargetPrefix, m)
    ensures forall m :: 0 <= m < i ==> MergeTargetAt(s, m).None?
  {
  }

  /** A digit run from `i` closed by `%` at `j`. */
  lemma PercentAtInteger(s: string, i: nat, j: nat)
    requires i < j < |s| && s[j] == '%'
    requires forall k :: i <= k < j ==> IsDigit(s[k])
    ensures AllDigits(s[i..j])
    ensures PercentAt(s, i) == Some(DigitsValue(s[i..j]) as real)
  {
    RunEndIs(s, i, j, IsDigit);
    assert AllDigits(s[i..j]);
  }

  /** A digit run from `i`, a dot at `j`, a digit run and `%` at `k`. */
  lemma PercentAtDecimal(s: string, i: nat, j: nat, k: nat)
    requires i < j < k < |s| && s[j] == '.' && s[k] == '%'
    requires forall m :: i <= m < j ==> IsDigit(s[m])
    requires forall m :: j + 1 <= m < k ==> IsDigit(s[m])
    ensures AllDigits(s[i..j]) && AllDigits(s[j + 1..k])
    ensures PercentAt(s, i) == Some(DecimalValue(s[i..j], s[j + 1..k]))
  {
    RunEndIs(s, i, j, IsDigit);
    RunEndIs(s, j + 1, k, IsDigit);
    assert AllDigits(s[i..j]);
    assert AllDigits(s[j + 1..k]);
  }

  /** `"45%"` after a text without digits reads as 45. */
  lemma PercentOfDigits(a: string, d: string, b: string)
    requires forall k :: 0 <= k < |a| ==> !IsDigit(a[k])
    requires d != [] && AllDigits(d)
    ensures FindPercent(a + d + "%" + b) == Some(DigitsValue(d) as real)
  {
    var s := a + d + "%" + b;
    var i := |a|;
    var j := i + |d|;
    assert s[0..i] == a;
    SliceHolds(s, 0, a, NotDigit);
    PercentAbsentBefore(s, i);
    assert s[i..j] == d;
    SliceHolds(s, i, d, IsDigit);
    assert s[j] == '%';
    PercentAtInteger(s, i, j);
    FindPercentAt(s, i, DigitsValue(d) as real);
  }

  /** `"45.25%"` after a text without digits reads as 45 + 25/100; the
      fraction may be empty, as in `"45.%"`. */
  lemma PercentOfDecimal(a: string, d: string, f: string, b: string)
    requires forall k :: 0 <= k < |a| ==> !IsDigit(a[k])
    requires d != [] && AllDigits(d) && AllDigits(f)
    ensures FindPercent(a + d + "." + f + "%" + b) == Some(DecimalValue(d, f))
  {
    var s := a + d + "." + f + "%" + b;
    var i := |a|;
    var j := i + |d|;
    var k := j + 1 + |f|;
    assert s[0..i] == a;
    SliceHolds(s, 0, a, NotDigit);
    PercentAbsentBefore(s, i);
    assert s[i..j] == d;
    SliceHolds(s, i, d, IsDigit);
    assert s[j + 1..k] == f;
    SliceHolds(s, j + 1, f, IsDigit);
    assert s[j] == '.' && s[k] == '%';
    PercentAtDecimal(s, i, j, k);
    FindPercentAt(s, i, DecimalValue(d, f));
  }

  /** "at", blanks up to `p`, a digit-or-dot run up to `j`, a word run up to
      `k` and "/s": the capture is `s[p..k + 2]`. */
  lemma SpeedAtRate(s: string, i: nat, p: nat, j: nat, k: nat)
    requires OccursAt(s, "at", i) && i + 2 < p < j < k && OccursAt(s, "/s", k)
    requires forall m :: i + 2 <= m < p ==> IsJsWhitespace(s[m])
    requires forall m :: p <= m < j ==> IsDigitOrDot(s[m])
    requires forall m :: j <= m < k ==> IsWordChar(s[m])
    requires !IsDigitOrDot(s[j])
    ensures SpeedAt(s, i) == Some(s[p..k + 2])
  {
    assert !IsJsWhitespace(s[p]);
    RunEndIs(s, i + 2, p, IsJsWhitespace);
    RunEndIs(s, p, j, IsDigitOrDot);
    assert s[k] == s[k..k + 2][0];
    RunEndIs(s, j, k, IsWordChar);
  }

  /** Where each piece of a rate line sits. */
  lemma SpeedLayout(s: string, a: string, w: string, d: string, u: string, b: string)
    requires s == a + "at" + (w + (d + u + "/s") + b)
    ensures s[|a|..|a| + 2] == "at"
    ensures s[|a| + 2..|a| + 2 + |w|] == w
    ensures s[|a| + 2 + |w|..|a| + 2 + |w| + |d|] == d
    ensures s[|a| + 2 + |w| + |d|..|a| + 2 + |w| + |d| + |u|] == u
    ensures s[|a| + 2 + |w| + |d| + |u|..|a| + 2 + |w| + |d| + |u| + 2] == "/s"
    ensures s[|a| + 2 + |w|..|a| + 2 + |w| + |d| + |u| + 2] == d + u + "/s"
  {
    CaptureSlice(a + "at", w, d + u + "/s", b);
    var p := |a| + 2 + |w|;
    var cap := s[p..p + |d| + |u| + 2];
    assert cap == d + u + "/s";
    assert s[p..p + |d|] == cap[..|d|];
    assert s[p + |d|..p + |d| + |u|] == cap[|d|..|d| + |u|];
    assert s[p + |d| + |u|..p + |d| + |u| + 2] == cap[|d| + |u|..];
  }

  /** The match read off the layout alone. */
  lemma SpeedFromLayout(s: string, i: nat, w: string, d: string, u: string)
    requires i + 2 + |w| + |d| + |u| + 2 <= |s|
    requires s[i..i + 2] == "at"
    requires s[i + 2..i + 2 + |w|] == w
    requires s[i + 2 + |w|..i + 2 + |w| + |d|] == d
    requires s[i + 2 + |w| + |d|..i + 2 + |w| + |d| + |u|] == u
    requires s[i + 2 + |w| + |d| + |u|..i + 2 + |w| + |d| + |u| + 2] == "/s"
    requires s[i + 2 + |w|..i + 2 + |w| + |d| + |u| + 2] == d + u + "/s"
    requires w != [] && forall k :: 0 <= k < |w| ==> IsJsWhitespace(w[k])
    requires d != [] && forall k :: 0 <= k < |d| ==> IsDigitOrDot(d[k])
    requires u != [] && !IsDigitOrDot(u[0]) && forall k :: 0 <= k < |u| ==> IsWordChar(u[k])
    ensures SpeedAt(s, i) == Some(d + u + "/s")
  {
    var p := i + 2 + |w|;
    var j := p + |d|;
    var k := j + |u|;
    SliceHolds(s, i + 2, w, IsJsWhitespace);
    SliceHolds(s, p, d, IsDigitOrDot);
    SliceHolds(s, j, u, IsWordChar);
    assert s[j] == u[0];
    SpeedAtRate(s, i, p, j, k);
  }

  /** The match at the "at" itself. */
  lemma SpeedRateAt(a: string, w: string, d: string, u: string, b: string)
    requires w != [] && forall k :: 0 <= k < |w| ==> IsJsWhitespace(w[k])
    requires d != [] && forall k :: 0 <= k < |d| ==> IsDigitOrDot(d[k])
    requires u != [] && !IsDigitOrDot(u[0]) && forall k :: 0 <= k < |u| ==> IsWordChar(u[k])
    ensures SpeedAt(a + "at" + (w + (d + u + "/s") + b), |a|) == Some(d + u + "/s")
  {
    var s := a + "at" + (w + (d + u + "/s") + b);
    SpeedLayout(s, a, w, d, u, b);
    SpeedFromLayout(s, |a|, w, d, u);
  }

  /** `"at  1.2MiB/s"` reads as `"1.2MiB/s"` when no "at" comes earlier. */
  lemma SpeedOfRate(a: string, w: string, d: string, u: string, b: string)
    requires !Includes(a, "at")
    requires w != [] && forall k :: 0 <= k < |w| ==> IsJsWhitespace(w[k])
    requires d != [] && forall k :: 0 <= k < |d| ==> IsDigitOrDot(d[k])
    requires u != [] && !IsDigitOrDot(u[0]) && forall k :: 0 <= k < |u| ==> IsWordChar(u[k])
    ensures FindSpeed(a + "at" + (w + (d + u + "/s") + b)) == Some(d + u + "/s")
  {
    var rest := w + (d + u + "/s") + b;
    var s := a + "at" + rest;
    OccurrenceAbsentBefore(a, "at", rest);
    SpeedAbsentBefore(s, |a|);
    SpeedRateAt(a, w, d, u, b);
    FindSpeedAt(s, |a|, d + u + "/s");
  }

  /** "ETA", blanks up to `p` and a run of digits and colons up to `j`. */
  lemma EtaAtRun(s: string, i: nat, p: nat, j: nat)
    requires OccursAt(s, "ETA", i) && i + 3 < p < j <= |s|
    requires forall m :: i + 3 <= m < p ==> IsJsWhitespace(s[m])
    requires forall m :: p <= m < j ==> IsDigitOrColon(s[m])
    requires j == |s| || !IsDigitOrColon(s[j])
    ensures EtaAt(s, i) == Some(s[p..j])
  {
    assert !IsJsWhitespace(s[p]);
    RunEndIs(s, i + 3, p, IsJsWhitespace);
    RunEndIs(s, p, j, IsDigitOrColon);
  }

  /** `"ETA 00:30"` reads as `"00:30"` when no "ETA" comes earlier. */
  lemma EtaOfLine(a: string, w: string, d: string, b: string)
    requires !Includes(a, "ETA")
    requires w != [] && forall k :: 0 <= k < |w| ==> IsJsWhitespace(w[k])
    requires d != [] && forall k :: 0 <= k < |d| ==> IsDigitOrColon(d[k])
    requires b == [] || !IsDigitOrColon(b[0])
    ensures FindEta(a + "ETA" + (w + d + b)) == Some(d)
  {
    var rest := w + d + b;
    var s := a + "ETA" + rest;
    var i := |a|;
    var p := i + 3 + |w|;
    var j := p + |d|;
    OccurrenceAbsentBefore(a, "ETA", rest);
    EtaAbsentBefore(s, i);
    assert s[i..i + 3] == "ETA";
    assert s[i + 3..p] == w;
    SliceHolds(s, i + 3, w, IsJsWhitespace);
    assert s[p..j] == d;
    SliceHolds(s, p, d, IsDigitOrColon);
    if j < |s| {
      assert s[j] == b[0];
    }
    EtaAtRun(s, i, p, j);
    FindEtaAt(s, i, d);
  }

  lemma DestinationPrefixHead()
    ensures forall k :: 0 < k < |DestinationPrefix| ==> DestinationPrefix[k] != DestinationPrefix[0]
  {
  }

  lemma MergerTargetPrefixHead()
    ensures forall k :: 0 < k < |MergerTargetPrefix| ==> MergerTargetPrefix[k] != MergerTargetPrefix[0]
  {
  }

  /** The prefix at `i` and the rest of the line up to `e`. */
  lemma DestinationAtLine(s: string, i: nat, e: nat)
    requires OccursAt(s, DestinationPrefix, i) && i + |DestinationPrefix| < e <= |s|
    requires forall m :: i + |DestinationPrefix| <= m < e ==> NotLineTerminator(s[m])
    requires e == |s| || IsLineTerminator(s[e])
    ensures DestinationAt(s, i) == Some(s[i + |DestinationPrefix|..e])
  {
    RunEndIs(s, i + |DestinationPrefix|, e, NotLineTerminator);
  }

  /** The destination is the rest of its line. */
  lemma DestinationOfLine(a: string, t: string, b: string)
    requires !Includes(a, DestinationPrefix)
    requires t != [] && forall k :: 0 <= k < |t| ==> !IsLineTerminator(t[k])
    requires b == [] || IsLineTerminator(b[0])
    ensures FindDestination(a + DestinationPrefix + (t + b)) == Some(t)
  {
    var rest := t + b;
    var s := a + DestinationPrefix + rest;
    var i := |a|;
    var p := i + |DestinationPrefix|;
    var e := p + |t|;
    DestinationPrefixHead();
    OccurrenceAbsentBefore(a, DestinationPrefix, rest);
    DestinationAbsentBefore(s, i);
    assert s[i..p] == DestinationPrefix;
    assert s[p..e] == t;
    SliceHolds(s, p, t, NotLineTerminator);
    if e < |s| {
      assert s[e] == b[0];
    }
    DestinationAtLine(s, i, e);
    FindDestinationAt(s, i, t);
  }

  /** The last double quote in `[lo, hi)` is at `q`. */
  lemma {:induction false} LastQuoteIs(s: string, lo: nat, hi: nat, q: nat)
    requires lo <= q < hi <= |s| && s[q] == '"'
    requires forall k :: q < k < hi ==> s[k] != '"'
    ensures LastQuote(s, lo, hi) == Some(q)
    decreases hi
  {
    if hi - 1 > q {
      LastQuoteIs(s, lo, hi - 1, q);
    }
  }

  /** The prefix at `i`, the capture up to the quote at `q`, and the rest of
      the line, without quotes, up to `e`. */
  lemma MergeTargetAtLine(s: string, i: nat, q: nat, e: nat)
    requires OccursAt(s, MergerTargetPrefix, i) && i + |MergerTargetPrefix| < q < e <= |s| && s[q] == '"'
    requires forall m :: i + |MergerTargetPrefix| <= m < q ==> NotLineTerminator(s[m])
    requires forall m :: q + 1 <= m < e ==> NotLineTerminatorOrQuote(s[m])
    requires e == |s| || IsLineTerminator(s[e])
    ensures MergeTargetAt(s, i) == Some(s[i + |MergerTargetPrefix|..q])
  {
    var p := i + |MergerTargetPrefix|;
    forall m | p <= m < e
      ensures NotLineTerminator(s[m])
    {
      if m > q {
        assert NotLineTerminatorOrQuote(s[m]);
      }
    }
    RunEndIs(s, p, e, NotLineTerminator);
    LastQuoteIs(s, p + 1, e, q);
  }

  /** Where each piece of a merge line sits. */
  lemma MergeLayout(s: string, a: string, t: string, c: string, b: string)
    requires s == a + MergerTargetPrefix + (t + "\"" + c + b)
    ensures s[|a|..|a| + |MergerTargetPrefix|] == MergerTargetPrefix
    ensures s[|a| + |MergerTargetPrefix|..|a| + |MergerTargetPrefix| + |t|] == t
    ensures s[|a| + |MergerTargetPrefix| + |t|] == '"'
    ensures s[|a| + |MergerTargetPrefix| + |t| + 1..|a| + |MergerTargetPrefix| + |t| + 1 + |c|] == c
    ensures |a| + |MergerTargetPrefix| + |t| + 1 + |c| < |s| ==> s[|a| + |MergerTargetPrefix| + |t| + 1 + |c|] == b[0]
  {
    var rest := t + "\"" + c + b;
    var e := |a| + |MergerTargetPrefix| + |t| + 1 + |c|;
    MiddleOfConcat(t + "\"", c, b);
    SliceOfConcat(a + MergerTargetPrefix, rest, |t| + 1, |t| + 1 + |c|);
    if e < |s| {
      assert s[e] == rest[|t| + 1 + |c|];
    }
  }

  /** The match read off the layout alone. */
  lemma MergeTargetFromLayout(s: string, i: nat, t: string, c: string)
    requires i + |MergerTargetPrefix| + |t| + 1 + |c| <= |s|
    requires s[i..i + |MergerTargetPrefix|] == MergerTargetPrefix
    requires s[i + |MergerTargetPrefix|..i + |MergerTargetPrefix| + |t|] == t
    requires s[i + |MergerTargetPrefix| + |t|] == '"'
    requires s[i + |MergerTargetPrefix| + |t| + 1..i + |MergerTargetPrefix| + |t| + 1 + |c|] == c
    requires t != [] && forall k :: 0 <= k < |t| ==> !IsLineTerminator(t[k])
    requires forall k :: 0 <= k < |c| ==> !IsLineTerminator(c[k]) && c[k] != '"'
    requires i + |MergerTargetPrefix| + |t| + 1 + |c| == |s|
          || IsLineTerminator(s[i + |MergerTargetPrefix| + |t| + 1 + |c|])
    ensures MergeTargetAt(s, i) == Some(t)
  {
    var p := i + |MergerTargetPrefix|;
    var q := p + |t|;
    SliceHolds(s, p, t, NotLineTerminator);
    SliceHolds(s, q + 1, c, NotLineTerminatorOrQuote);
    MergeTargetAtLine(s, i, q, q + 1 + |c|);
  }

  /** The match at the prefix itself. */
  lemma MergeTargetLineAt(a: string, t: string, c: string, b: string)
    requires t != [] && forall k :: 0 <= k < |t| ==> !IsLineTerminator(t[k])
    requires forall k :: 0 <= k < |c| ==> !IsLineTerminator(c[k]) && c[k] != '"'
    requires b == [] || IsLineTerminator(b[0])
    ensures MergeTargetAt(a + MergerTargetPrefix + (t + "\"" + c + b), |a|) == Some(t)
  {
    var s := a + MergerTargetPrefix + (t + "\"" + c + b);
    MergeLayout(s, a, t, c, b);
    MergeTargetFromLayout(s, |a|, t, c);
  }

  /** The merge target runs up to the last double quote of its line, so it
      may itself hold quotes. */
  lemma MergeTargetOfLine(a: string, t: string, c: string, b: string)
    requires !Includes(a, MergerTargetPrefix)
    requires t != [] && forall k :: 0 <= k < |t| ==> !IsLineTerminator(t[k])
    requires forall k :: 0 <= k < |c| ==> !IsLineTerminator(c[k]) && c[k] != '"'
    requires b == [] || IsLineTerminator(b[0])
    ensures FindMergeTarget(a + MergerTargetPrefix + (t + "\"" + c + b)) == Some(t)
  {
    var rest := t + "\"" + c + b;
    var s := a + MergerTargetPrefix + rest;
    MergerTargetPrefixHead();
    OccurrenceAbsentBefore(a, MergerTargetPrefix, rest);
    MergeTargetAbsentBefore(s, |a|);
    MergeTargetLineAt(a, t, c, b);
    FindMergeTargetAt(s, |a|, t);
  }

  /** Not everything yt-dlp writes to stderr is an error: only a chunk that
      names one is recorded. */
  predicate IsErrorChunk(e: string) {
    Includes(e, "ERROR") || Includes(e, "error")
  }

  // Sample progress lines, with what each recogniser reads from them.

  lemma PercentScenario()
    ensures FindPercent("45.2%") == Some(45.2)
  {
    var s := "45.2%";
    assert RunEnd(s, 2, IsDigit) == 2;
    assert RunEnd(s, 0, IsDigit) == 2;
    assert RunEnd(s, 4, IsDigit) == 4;
    assert RunEnd(s, 3, IsDigit) == 4;
    assert s[0..2] == "45" && s[3..4] == "2";
    assert DigitsValue("4") == 4;
    assert DigitsValue("45") == 45;
    assert DigitsValue("2") == 2;
    assert PercentAt(s, 0) == Some(45.2);
  }

  lemma SpeedScenario()
    ensures FindSpeed("at 1.2MiB/s") == Some("1.2MiB/s")
  {
    var s := "at 1.2MiB/s";
    assert OccursAt(s, "at", 0);
    assert RunEnd(s, 3, IsJsWhitespace) == 3;
    assert RunEnd(s, 2, IsJsWhitespace) == 3;
    assert RunEnd(s, 6, IsDigitOrDot) == 6;
    assert RunEnd(s, 5, IsDigitOrDot) == 6;
    assert RunEnd(s, 4, IsDigitOrDot) == 6;
    assert RunEnd(s, 3, IsDigitOrDot) == 6;
    assert RunEnd(s, 9, IsWordChar) == 9;
    assert RunEnd(s, 8, IsWordChar) == 9;
    assert RunEnd(s, 7, IsWordChar) == 9;
    assert RunEnd(s, 6, IsWordChar) == 9;
    assert OccursAt(s, "/s", 9);
    assert s[3..11] == "1.2MiB/s";
    assert SpeedAt(s, 0) == Some("1.2MiB/s");
  }

  lemma EtaScenario()
    ensures FindEta("ETA 00:30") == Some("00:30")
  {
    var s := "ETA 00:30";
    assert OccursAt(s, "ETA", 0);
    assert RunEnd(s, 4, IsJsWhitespace) == 4;
    assert RunEnd(s, 3, IsJsWhitespace) == 4;
    assert RunEnd(s, 9, IsDigitOrColon) == 9;
    assert RunEnd(s, 8, IsDigitOrColon) == 9;
    assert RunEnd(s, 7, IsDigitOrColon) == 9;
    assert RunEnd(s, 6, IsDigitOrColon) == 9;
    assert RunEnd(s, 5, IsDigitOrColon) == 9;
    assert RunEnd(s, 4, IsDigitOrColon) == 9;
    assert s[4..9] == "00:30";
    assert EtaAt(s, 0) == Some("00:30");
  }
}
