/** main.py, `analyze_dr`: thread sizing, pairing blocks with tracks,
    `process_results` accumulating the log rows and DR values of each source, and
    the official DR.  `compute_dr` is not part of this model: its result for a
    block is a parameter. */
module Analysis {
  import opened Wrappers
  import opened Text
  import opened Sequences
  import opened Arith
  import opened AudioIo
  import opened Grouping

  // ---------------------------------------------------------------------------
  // Thread sizing and choose_map_impl

  /** `threads_outer = max(1, min(num_files, cpu_count))` and
      `threads_inner = cpu_count // threads_outer`; `analyze_dr` has asserted that
      there is at least one file, and the machine has at least one CPU. */
  function ThreadCounts(numFiles: int, cpuCount: int): (t: (int, int))
    requires numFiles >= 1 && cpuCount >= 1
    ensures 1 <= t.0 <= numFiles && t.0 <= cpuCount
    ensures t.0 == numFiles || t.0 == cpuCount
    ensures t.1 >= 1 && t.0 * t.1 <= cpuCount
    ensures cpuCount < t.0 * (t.1 + 1)
  {
    var outer := if numFiles < cpuCount then numFiles else cpuCount;
    var outer := if outer < 1 then 1 else outer;
    var inner := cpuCount / outer;
    assert cpuCount == outer * inner + cpuCount % outer;
    (outer, inner)
  }

  datatype MapImpl = Sequential | ThreadPool(threads: int, chunksize: int)

  /** `choose_map_impl`: plain `map` for one thread or fewer, otherwise a pool. */
  function ChooseMapImpl(threads: int, chunksize: int): (m: MapImpl)
    ensures m.Sequential? <==> threads <= 1
    ensures m.ThreadPool? ==> m.threads == threads && m.chunksize == chunksize
  {
    if threads <= 1 then Sequential else ThreadPool(threads, chunksize)
  }

  /** The files are read one after another exactly when there is one file or one
      CPU; a file's blocks are measured sequentially exactly when there are fewer
      than two CPUs per concurrently read file. */
  lemma MapImplChoice(numFiles: int, cpuCount: int)
    requires numFiles >= 1 && cpuCount >= 1
    ensures var (outer, inner) := ThreadCounts(numFiles, cpuCount);
      && (ChooseMapImpl(outer, 1).Sequential? <==> numFiles == 1 || cpuCount == 1)
      && (ChooseMapImpl(inner, 4).Sequential? <==> cpuCount < 2 * outer)
  {
    var (outer, inner) := ThreadCounts(numFiles, cpuCount);
    if inner >= 2 {
      MulMonotone(2, inner, outer);
    } else {
      MulMonotone(inner + 1, 2, outer);
    }
  }

  // ---------------------------------------------------------------------------
  // Rounding

  /** `k` is `num / den` rounded to the nearest integer, ties to the even one:
      it is at most half a step away, and an even number when exactly half. */
  predicate NearestEven(num: int, den: int, k: int)
  {
    && -den <= 2 * (num - den * k) <= den
    && ((2 * (num - den * k) == den || 2 * (num - den * k) == -den) ==> k % 2 == 0)
  }

  /** Python's `round` and `numpy.round` on an exact quotient `num / den`. */
  function RoundHalfEven(num: int, den: int): (k: int)
    requires den > 0
    ensures num / den <= k <= num / den + 1
  {
    var q, rem := num / den, num % den;
    if 2 * rem < den then q
    else if 2 * rem > den then q + 1
    else if q % 2 == 0 then q
    else q + 1
  }

  lemma RoundHalfEvenNearest(num: int, den: int)
    requires den > 0
    ensures NearestEven(num, den, RoundHalfEven(num, den))
  {
    var q, rem := num / den, num % den;
    assert num - den * q == rem;
    assert num - den * (q + 1) == rem - den;
  }

  /** Two errors of at most half a step each, a whole number `d >= 1` of steps
      apart, are exactly one step apart and both ties. */
  lemma TiesApart(e: int, e2: int, den: int, d: int)
    requires den > 0 && d >= 1 && e - e2 == den * d
    requires 2 * e <= den && -den <= 2 * e2
    ensures d == 1 && 2 * e == den && 2 * e2 == -den
  {
    MulMonotone(1, d, den);
    if d >= 2 {
      MulMonotone(2, d, den);
    }
  }

  /** The rounding is characterised by `NearestEven`: it satisfies it, and no
      other integer does. */
  lemma RoundHalfEvenUnique(num: int, den: int, k: int)
    requires den > 0
    ensures NearestEven(num, den, k) <==> k == RoundHalfEven(num, den)
  {
    var r := RoundHalfEven(num, den);
    RoundHalfEvenNearest(num, den);
    if NearestEven(num, den, k) {
      var e, e2 := num - den * r, num - den * k;
      if k > r {
        assert e - e2 == den * (k - r);
        TiesApart(e, e2, den, k - r);
      } else if r > k {
        assert e2 - e == den * (r - k);
        TiesApart(e2, e, den, r - k);
      }
    }
  }

  function Sum(xs: seq<int>): int {
    if xs == [] then 0 else xs[0] + Sum(xs[1..])
  }

  /** `int(numpy.round(numpy.mean(dr_items)))`; the mean of an empty list is NaN
      and `int` of it raises, which is the `None` here. */
  function OfficialDr(drItems: seq<int>): (r: Option<int>)
    ensures r.None? <==> drItems == []
  {
    if drItems == [] then None else Some(RoundHalfEven(Sum(drItems), |drItems|))
  }

  lemma {:induction false} SumAtLeast(xs: seq<int>, lo: int)
    requires forall i :: 0 <= i < |xs| ==> lo <= xs[i]
    ensures lo * |xs| <= Sum(xs)
  {
    if xs != [] {
      SumAtLeast(xs[1..], lo);
      assert lo * |xs| == lo + lo * (|xs| - 1);
    }
  }

  lemma {:induction false} SumAtMost(xs: seq<int>, hi: int)
    requires forall i :: 0 <= i < |xs| ==> xs[i] <= hi
    ensures Sum(xs) <= hi * |xs|
  {
    if xs != [] {
      SumAtMost(xs[1..], hi);
      assert hi * |xs| == hi + hi * (|xs| - 1);
    }
  }

  /** An integer at most half a step below a quotient that is at least `lo`
      is itself at least `lo`. */
  lemma RoundedAtLeast(s: int, n: int, lo: int, r: int)
    requires n > 0 && lo * n <= s && 2 * (s - n * r) <= n
    ensures lo <= r
  {
    assert (lo - r) * n == lo * n - n * r;
    if r < lo {
      MulMonotone(1, lo - r, n);
    }
  }

  lemma RoundedAtMost(s: int, n: int, hi: int, r: int)
    requires n > 0 && s <= hi * n && -n <= 2 * (s - n * r)
    ensures r <= hi
  {
    assert (r - hi) * n == n * r - hi * n;
    if r > hi {
      MulMonotone(1, r - hi, n);
    }
  }

  /** The official DR lies between the smallest and the largest track DR; in
      particular it is that value when all tracks agree. */
  lemma OfficialDrBounds(drItems: seq<int>, lo: int, hi: int)
    requires drItems != []
    requires forall i :: 0 <= i < |drItems| ==> lo <= drItems[i] <= hi
    ensures lo <= OfficialDr(drItems).value <= hi
  {
    var n, s := |drItems|, Sum(drItems);
    RoundHalfEvenNearest(s, n);
    SumAtLeast(drItems, lo);
    SumAtMost(drItems, hi);
    RoundedAtLeast(s, n, lo, RoundHalfEven(s, n));
    RoundedAtMost(s, n, hi, RoundHalfEven(s, n));
  }

  // ---------------------------------------------------------------------------
  // analyze_part_tracks

  /** What `compute_dr` reports for one block (its result is an input here). */
  datatype DrMetrics = DrMetrics(dr: Option<int>, peak: real, rms: real, sampleCount: nat)

  /** The pairs `analyze_part_tracks` yields, and the error it raises after them. */
  datatype PartTracks = PartTracks(analyzed: seq<(TrackInfo, DrMetrics)>, failure: Option<Error>)

  /** `zip(blocks_generator, tracks)`: one block per track, as many pairs as the
      shorter side has.  `zip` asks the block generator first, so the generator's
      error surfaces exactly when the tracks outlast (or match) the blocks. */
  function AnalyzePartTracks(stream: BlockStream, info: AudioSourceInfo,
                             computeDr: (AudioSourceInfo, Block) -> DrMetrics): (p: PartTracks)
    ensures |p.analyzed| == Min(|stream.blocks|, |info.tracks|)
    ensures forall i :: 0 <= i < |p.analyzed| ==>
      p.analyzed[i] == (info.tracks[i], computeDr(info, stream.blocks[i]))
    ensures p.failure.Some? <==> stream.failure.Some? && |stream.blocks| <= |info.tracks|
    ensures p.failure.Some? ==> p.failure == stream.failure
  {
    var n := Min(|stream.blocks|, |info.tracks|);
    PartTracks(
      seq(n, i requires 0 <= i < n => (info.tracks[i], computeDr(info, stream.blocks[i]))),
      if |stream.blocks| <= |info.tracks| then stream.failure else None)
  }

  // ---------------------------------------------------------------------------
  // process_results

  predicate Truthy(dr: Option<int>) {
    dr.Some? && dr.value != 0
  }

  /** `f"{global_index:02d}-{name}"`. */
  function TrackLabel(t: TrackInfo): string {
    Pad2(t.globalIndex) + "-" + t.name
  }

  /** The log row of one analysed track; `msr` is `MEASURE_SAMPLE_RATE`. */
  function LogRow(t: TrackInfo, m: DrMetrics, msr: nat): TrackRow
    requires msr > 0
  {
    TrackRow(m.dr, m.peak, m.rms, RoundHalfEven(m.sampleCount, msr), TrackLabel(t))
  }

  function RowOf(msr: nat): ((TrackInfo, DrMetrics)) -> TrackRow
    requires msr > 0
  {
    (e: (TrackInfo, DrMetrics)) => LogRow(e.0, e.1, msr)
  }

  function LogRows(analyzed: seq<(TrackInfo, DrMetrics)>, msr: nat): (rows: seq<TrackRow>)
    requires msr > 0
    ensures |rows| == |analyzed|
    ensures forall i :: 0 <= i < |rows| ==> rows[i] == LogRow(analyzed[i].0, analyzed[i].1, msr)
  {
    Map(analyzed, RowOf(msr))
  }

  function ResultOf(e: (TrackInfo, DrMetrics)): (TrackInfo, Option<int>)
  {
    (e.0, e.1.dr)
  }

  /** The `(track_info, dr)` pairs: what `track_cb` is called with and what
      `process_results` returns. */
  function TrackResults(analyzed: seq<(TrackInfo, DrMetrics)>): (rs: seq<(TrackInfo, Option<int>)>)
    ensures |rs| == |analyzed|
    ensures forall i :: 0 <= i < |rs| ==> rs[i] == (analyzed[i].0, analyzed[i].1.dr)
  {
    Map(analyzed, ResultOf)
  }

  /** The DR a track contributes to `dr_items`: its value when truthy. */
  function DrOf(e: (TrackInfo, DrMetrics)): seq<int>
  {
    if Truthy(e.1.dr) then [e.1.dr.value] else []
  }

  /** Every value one track contributes is non-zero, so the collected values are. */
  lemma {:induction false} NonZeroDrs(analyzed: seq<(TrackInfo, DrMetrics)>)
    ensures forall i :: 0 <= i < |ConcatMap(analyzed, DrOf)| ==> ConcatMap(analyzed, DrOf)[i] != 0
  {
    if analyzed != [] {
      var front := analyzed[..|analyzed| - 1];
      NonZeroDrs(front);
      var drs := ConcatMap(analyzed, DrOf);
      assert drs == ConcatMap(front, DrOf) + DrOf(analyzed[|analyzed| - 1]);
    }
  }

  /** The DR values `process_results` collects: the truthy ones, in order. */
  function TruthyDrs(analyzed: seq<(TrackInfo, DrMetrics)>): (drs: seq<int>)
    ensures forall i :: 0 <= i < |drs| ==> drs[i] != 0
  {
    NonZeroDrs(analyzed);
    ConcatMap(analyzed, DrOf)
  }

  /** A value is collected exactly when it is non-zero and some track reported it:
      `None` and 0 are skipped, nothing else is. */
  lemma {:induction false} TruthyDrsMeaning(analyzed: seq<(TrackInfo, DrMetrics)>, v: int)
    ensures v in TruthyDrs(analyzed) <==>
      v != 0 && exists i :: 0 <= i < |analyzed| && analyzed[i].1.dr == Some(v)
    ensures |TruthyDrs(analyzed)| <= |analyzed|
  {
    if analyzed != [] {
      var front := analyzed[..|analyzed| - 1];
      TruthyDrsMeaning(front, v);
      if exists i :: 0 <= i < |front| && front[i].1.dr == Some(v) {
        var i :| 0 <= i < |front| && front[i].1.dr == Some(v);
        assert analyzed[i] == front[i];
      }
      if exists i :: 0 <= i < |analyzed| && analyzed[i].1.dr == Some(v) {
        var i :| 0 <= i < |analyzed| && analyzed[i].1.dr == Some(v);
        if i < |front| {
          assert front[i] == analyzed[i];
        }
      }
    }
  }

  /** First occurrence of `c` in `s`, or `|s|`. */
  function IndexOf(s: string, c: char): (k: nat)
    ensures k <= |s| && (k < |s| ==> s[k] == c)
    ensures forall j :: 0 <= j < k ==> s[j] != c
  {
    if s == [] then 0 else if s[0] == c then 0 else 1 + IndexOf(s[1..], c)
  }

  /** Reads a tag back as the index before the first '-' and the name after it. */
  function ParseLabel(tag: string): Option<(int, string)>
  {
    var k := IndexOf(tag, '-');
    if k == |tag| then None
    else match ParseInt(tag[..k])
      case Some(v) => Some((v, tag[k + 1..]))
      case None => None
  }

  /** For a non-negative index the tag names the index and the name without
      loss, whatever the name contains; indices below 100 take exactly two digits. */
  lemma TrackLabelRoundTrip(t: TrackInfo)
    requires t.globalIndex >= 0
    ensures ParseLabel(TrackLabel(t)) == Some((t.globalIndex, t.name))
    ensures t.globalIndex < 100 ==> TrackLabel(t)[2] == '-'
  {
    var digits := Pad2(t.globalIndex);
    var tag := TrackLabel(t);
    assert AllDigits(digits) && DigitsValue(digits) == t.globalIndex;
    assert tag[..|digits|] == digits;
    assert IndexOf(tag, '-') == |digits| by {
      assert tag[|digits|] == '-';
      assert forall j :: 0 <= j < |digits| ==> tag[j] == digits[j];
    }
    assert tag[|digits| + 1..] == t.name;
  }

  /** The state `analyze_dr` shares with `process_results`: `dr_items`,
      `dr_log_items`, and the calls made to `track_cb`, in order. */
  class Aggregator {
    var drItems: seq<int>
    var logItems: seq<LogItem>
    var callbacks: seq<(TrackInfo, Option<int>)>

    constructor ()
      ensures drItems == [] && logItems == [] && callbacks == []
    {
      drItems := [];
      logItems := [];
      callbacks := [];
    }

    /** `process_results` for one source: appends the source's entry to the log
        first, then for each analysed track calls back, collects a truthy DR and
        adds the track's row to that entry.  An error from the pairs' generator
        ends it after the pairs it yielded. */
    method ProcessResults(info: AudioSourceInfo, part: PartTracks, msr: nat)
      returns (r: Result<seq<(TrackInfo, Option<int>)>, Error>)
      requires msr > 0
      modifies this
      ensures logItems == old(logItems) + [LogItem(info, LogRows(part.analyzed, msr))]
      ensures drItems == old(drItems) + TruthyDrs(part.analyzed)
      ensures callbacks == old(callbacks) + TrackResults(part.analyzed)
      ensures part.failure.None? ==> r == Success(TrackResults(part.analyzed))
      ensures part.failure.Some? ==> r == Failure(part.failure.value)
    {
      var subitems: seq<TrackRow> := [];
      var earlier := logItems;
      logItems := earlier + [LogItem(info, subitems)];
      var trackResults: seq<(TrackInfo, Option<int>)> := [];
      var i := 0;
      while i < |part.analyzed|
        invariant i <= |part.analyzed|
        invariant subitems == LogRows(part.analyzed[..i], msr)
        invariant earlier == old(logItems) && logItems == earlier + [LogItem(info, subitems)]
        invariant trackResults == TrackResults(part.analyzed[..i])
        invariant callbacks == old(callbacks) + trackResults
        invariant drItems == old(drItems) + TruthyDrs(part.analyzed[..i])
      {
        var (trackInfo, drMetrics) := part.analyzed[i];
        var dr := drMetrics.dr;
        MapStep(part.analyzed, i, RowOf(msr));
        MapStep(part.analyzed, i, ResultOf);
        ConcatMapStep(part.analyzed, i, DrOf);
        AppendAssoc(old(callbacks), trackResults, [(trackInfo, dr)]);
        trackResults := trackResults + [(trackInfo, dr)];
        callbacks := callbacks + [(trackInfo, dr)];
        AppendAssoc(old(drItems), TruthyDrs(part.analyzed[..i]), DrOf(part.analyzed[i]));
        // only a truthy DR is collected
        drItems := drItems + DrOf(part.analyzed[i]);
        var row := LogRow(trackInfo, drMetrics, msr);
        subitems := subitems + [row];
        // the entry appended above holds this same list, so it grows with it
        logItems := earlier + [LogItem(info, subitems)];
        i := i + 1;
      }
      assert part.analyzed[..i] == part.analyzed;
      if part.failure.Some? {
        r := Failure(part.failure.value);
      } else {
        r := Success(trackResults);
      }
    }
  }

  /** The indices of the tracks that report DR `v`. */
  ghost function Reporting(analyzed: seq<(TrackInfo, DrMetrics)>, v: int): set<int>
  {
    set i | 0 <= i < |analyzed| && analyzed[i].1.dr == Some(v)
  }

  lemma ReportingStep(analyzed: seq<(TrackInfo, DrMetrics)>, v: int)
    requires analyzed != []
    ensures var n := |analyzed| - 1;
      Reporting(analyzed, v)
      == Reporting(analyzed[..n], v) + (if analyzed[n].1.dr == Some(v) then {n} else {})
  {
    var n := |analyzed| - 1;
    forall i | 0 <= i < n ensures analyzed[..n][i] == analyzed[i] { }
  }

  /** Each non-zero value is collected once for every track that reports it, and 0
      never: the multiset the mean is taken over. */
  lemma {:induction false} TruthyDrsCount(analyzed: seq<(TrackInfo, DrMetrics)>, v: int)
    ensures multiset(TruthyDrs(analyzed))[v] == if v == 0 then 0 else |Reporting(analyzed, v)|
  {
    if analyzed == [] {
      assert Reporting(analyzed, v) == {};
    } else {
      var n := |analyzed| - 1;
      var front := analyzed[..n];
      TruthyDrsCount(front, v);
      ReportingStep(analyzed, v);
      assert n !in Reporting(front, v);
      assert TruthyDrs(analyzed) == TruthyDrs(front) + DrOf(analyzed[n]);
    }
  }

  lemma {:induction false} SumAppend(a: seq<int>, b: seq<int>)
    ensures Sum(a + b) == Sum(a) + Sum(b)
  {
    if a == [] {
      assert a + b == b;
    } else {
      assert (a + b)[1..] == a[1..] + b;
      SumAppend(a[1..], b);
    }
  }

  /** The sum depends only on the multiset of the values, not on their order. */
  lemma {:induction false} SumPermutation(xs: seq<int>, ys: seq<int>)
    requires multiset(xs) == multiset(ys)
    ensures Sum(xs) == Sum(ys)
    decreases |xs|
  {
    if xs == [] {
      assert |ys| == |multiset(ys)| == 0;
    } else {
      var x := xs[0];
      assert x in multiset(ys);
      var j :| 0 <= j < |ys| && ys[j] == x;
      var rest := ys[..j] + ys[j + 1..];
      assert ys == ys[..j] + ([x] + ys[j + 1..]);
      assert xs == [x] + xs[1..];
      assert multiset(ys) == multiset(ys[..j]) + multiset{x} + multiset(ys[j + 1..]);
      assert multiset(xs) == multiset{x} + multiset(xs[1..]);
      assert multiset(rest) == multiset(ys[..j]) + multiset(ys[j + 1..]);
      assert multiset(xs[1..]) == multiset(xs) - multiset{x};
      assert multiset(rest) == multiset(ys) - multiset{x};
      SumPermutation(xs[1..], rest);
      SumAppend(ys[..j], [x] + ys[j + 1..]);
      SumAppend(ys[..j], ys[j + 1..]);
    }
  }

  /** The official DR does not depend on the order the DR values were collected in,
      so sources finishing in any order give the same value. */
  lemma OfficialDrOrderFree(xs: seq<int>, ys: seq<int>)
    requires multiset(xs) == multiset(ys)
    ensures OfficialDr(xs) == OfficialDr(ys)
  {
    assert |xs| == |multiset(xs)| == |multiset(ys)| == |ys|;
    SumPermutation(xs, ys);
  }

  // ---------------------------------------------------------------------------
  // analyze_dr

  /** One source: its record (as `read_audio_info` and the resolver give it) and
      the bytes its decoder writes. */
  datatype SourceInput = SourceInput(info: AudioSourceInfo, decoded: seq<Byte>)

  datatype AnalysisError =
    | NoSources              // `assert num_files > 0`
    | AudioFailure(error: Error) // raised while a source's blocks are read
    | NoDrValues             // `int(numpy.round(numpy.mean([])))`

  /** The block stream `read_audio_data` gives for a source. */
  function SourceStream(info: AudioSourceInfo, decoded: seq<Byte>, samplesPerBlock: nat): BlockStream
  {
    if info.channelCount >= 0 then BlocksOf(decoded, info.channelCount, samplesPerBlock)
    else if samplesPerBlock > 0 then
      BlockStream([], Some(NegativeBufferSize(4 * info.channelCount * samplesPerBlock)))
    else BlockStream([], None)
  }

  /** What `analyze_part` yields for a source: blocks of `3 * MEASURE_SAMPLE_RATE`
      samples per channel, paired with its tracks. */
  function Part(src: SourceInput, computeDr: (AudioSourceInfo, Block) -> DrMetrics, msr: nat): PartTracks
  {
    AnalyzePartTracks(SourceStream(src.info, src.decoded, 3 * msr), src.info, computeDr)
  }

  function ItemsOf(computeDr: (AudioSourceInfo, Block) -> DrMetrics, msr: nat): SourceInput -> seq<LogItem>
    requires msr > 0
  {
    (src: SourceInput) => [LogItem(src.info, LogRows(Part(src, computeDr, msr).analyzed, msr))]
  }

  function DrsOf(computeDr: (AudioSourceInfo, Block) -> DrMetrics, msr: nat): SourceInput -> seq<int>
  {
    (src: SourceInput) => TruthyDrs(Part(src, computeDr, msr).analyzed)
  }

  function CallsOf(computeDr: (AudioSourceInfo, Block) -> DrMetrics, msr: nat): SourceInput -> seq<(TrackInfo, Option<int>)>
  {
    (src: SourceInput) => TrackResults(Part(src, computeDr, msr).analyzed)
  }

  predicate AllRead(sources: seq<SourceInput>, computeDr: (AudioSourceInfo, Block) -> DrMetrics, msr: nat)
  {
    forall i :: 0 <= i < |sources| ==> Part(sources[i], computeDr, msr).failure.None?
  }

  /** Source `j` is the first whose read fails, and it fails with `e`. */
  predicate FailsFirstAt(sources: seq<SourceInput>, computeDr: (AudioSourceInfo, Block) -> DrMetrics, msr: nat,
                         j: int, e: Error)
  {
    0 <= j < |sources| && AllRead(sources[..j], computeDr, msr) && Part(sources[j], computeDr, msr).failure == Some(e)
  }

  lemma AllReadStep(sources: seq<SourceInput>, i: nat, computeDr: (AudioSourceInfo, Block) -> DrMetrics, msr: nat)
    requires i < |sources| && AllRead(sources[..i], computeDr, msr)
    requires Part(sources[i], computeDr, msr).failure.None?
    ensures AllRead(sources[..i + 1], computeDr, msr)
  {
    var prefix := sources[..i + 1];
    forall j | 0 <= j < |prefix| ensures Part(prefix[j], computeDr, msr).failure.None? {
      if j < i {
        assert prefix[j] == sources[..i][j];
      }
    }
  }

  /** `analyze_dr` with the sources processed one after another, in order: each
      source is read, its blocks paired with its tracks and its results processed;
      the first error ends the run.  On success the log groups and the official DR
      come from exactly the rows and DR values of all sources, in order. */
  method AnalyzeDr(sources: seq<SourceInput>, computeDr: (AudioSourceInfo, Block) -> DrMetrics, msr: nat)
    returns (r: Result<(seq<LogGroup>, int), AnalysisError>, agg: Aggregator)
    requires msr > 0
    ensures sources == [] ==> r == Failure(NoSources)
    ensures r.Success? <==>
      sources != [] && AllRead(sources, computeDr, msr) && ConcatMap(sources, DrsOf(computeDr, msr)) != []
    ensures r.Success? ==>
      && agg.logItems == ConcatMap(sources, ItemsOf(computeDr, msr))
      && agg.drItems == ConcatMap(sources, DrsOf(computeDr, msr))
      && agg.callbacks == ConcatMap(sources, CallsOf(computeDr, msr))
      && r.value == (MakeLogGroups(agg.logItems), OfficialDr(agg.drItems).value)
    ensures r.Failure? && sources != [] && AllRead(sources, computeDr, msr) ==> r.error == NoDrValues
    ensures r.Failure? && sources != [] && !AllRead(sources, computeDr, msr) ==>
      r.error.AudioFailure? && exists j :: FailsFirstAt(sources, computeDr, msr, j, r.error.error)
  {
    agg := new Aggregator();
    if sources == [] {
      r := Failure(NoSources);
      return;
    }
    var i := 0;
    while i < |sources|
      invariant i <= |sources|
      invariant AllRead(sources[..i], computeDr, msr)
      invariant agg.logItems == ConcatMap(sources[..i], ItemsOf(computeDr, msr))
      invariant agg.drItems == ConcatMap(sources[..i], DrsOf(computeDr, msr))
      invariant agg.callbacks == ConcatMap(sources[..i], CallsOf(computeDr, msr))
      modifies agg
    {
      var src := sources[i];
      var pipe := new Pipe(src.decoded);
      var source := ReadAudioData(src.info, 3 * msr, pipe);
      var part := AnalyzePartTracks(source.blocks, src.info, computeDr);
      assert part == Part(src, computeDr, msr);
      ConcatMapStep(sources, i, ItemsOf(computeDr, msr));
      ConcatMapStep(sources, i, DrsOf(computeDr, msr));
      ConcatMapStep(sources, i, CallsOf(computeDr, msr));
      var result := agg.ProcessResults(src.info, part, msr);
      if result.Failure? {
        r := Failure(AudioFailure(result.error));
        assert FailsFirstAt(sources, computeDr, msr, i, result.error);
        return;
      }
      AllReadStep(sources, i, computeDr, msr);
      i := i + 1;
    }
    assert sources[..i] == sources;
    var official := OfficialDr(agg.drItems);
    if official.None? {
      r := Failure(NoDrValues);
    } else {
      r := Success((MakeLogGroups(agg.logItems), official.value));
    }
  }
}
