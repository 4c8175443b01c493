/** main.py, `flatmap` and `make_log_groups`: the per-source log rows are grouped
    into runs of consecutive sources with the same channel count and sample rate
    (`itertools.groupby`), and each run becomes one section of the log. */
module Grouping {
  import opened Wrappers
  import opened Sequences
  import opened AudioIo

  /** One row of the log: `(dr, peak, rms, duration_sec, track_name)`. */
  datatype TrackRow = TrackRow(dr: Option<int>, peak: real, rms: real, durationSec: int, name: string)

  /** One entry of `dr_log_items`: a source and the rows of its tracks. */
  datatype LogItem = LogItem(info: AudioSourceInfo, rows: seq<TrackRow>)

  datatype LogGroup = LogGroup(
    performers: set<string>,
    albums: set<string>,
    channels: int,
    sampleRate: int,
    tracksDr: seq<TrackRow>)

  /** The `groupby` key: `(channel_count, sample_rate)`. */
  function Key(item: LogItem): (int, int) {
    (item.info.channelCount, item.info.sampleRate)
  }

  /** `parts` cuts `items` into maximal runs: in order, none empty, one key per run,
      and neighbouring runs with different keys. */
  predicate IsGrouping(parts: seq<seq<LogItem>>, items: seq<LogItem>) {
    && Flatten(parts) == items
    && (forall i :: 0 <= i < |parts| ==> parts[i] != [])
    && (forall i, j :: 0 <= i < |parts| && 0 <= j < |parts[i]| ==> Key(parts[i][j]) == Key(parts[i][0]))
    && (forall i :: 0 <= i < |parts| - 1 ==> Key(parts[i][0]) != Key(parts[i + 1][0]))
  }

  /** `itertools.groupby(l, key)`: the runs of consecutive items with equal keys. */
  function Runs(items: seq<LogItem>): (runs: seq<seq<LogItem>>)
    ensures IsGrouping(runs, items)
    ensures runs != [] ==> runs[0][0] == items[0]
    decreases |items|
  {
    if items == [] then []
    else
      var rest := Runs(items[1..]);
      assert items == [items[0]] + items[1..];
      if rest != [] && Key(rest[0][0]) == Key(items[0]) then
        JoinFirstRun(items[0], rest, items[1..]);
        [[items[0]] + rest[0]] + rest[1..]
      else
        NewFirstRun(items[0], rest, items[1..]);
        [[items[0]]] + rest
  }

  /** An item with the key of the first run joins that run. */
  lemma JoinFirstRun(x: LogItem, rest: seq<seq<LogItem>>, more: seq<LogItem>)
    requires IsGrouping(rest, more) && rest != [] && Key(rest[0][0]) == Key(x)
    ensures IsGrouping([[x] + rest[0]] + rest[1..], [x] + more)
  {
    var runs := [[x] + rest[0]] + rest[1..];
    assert runs[1..] == rest[1..];
    assert rest == [rest[0]] + rest[1..];
    assert Flatten(runs) == [x] + Flatten(rest);
    forall i, j | 0 <= i < |runs| && 0 <= j < |runs[i]| ensures Key(runs[i][j]) == Key(runs[i][0]) {
      if i == 0 && j > 0 {
        assert runs[0][j] == rest[0][j - 1];
      }
    }
  }

  /** An item with another key than the first run starts a run of its own. */
  lemma NewFirstRun(x: LogItem, rest: seq<seq<LogItem>>, more: seq<LogItem>)
    requires IsGrouping(rest, more) && (rest == [] || Key(rest[0][0]) != Key(x))
    ensures IsGrouping([[x]] + rest, [x] + more)
  {
    var runs := [[x]] + rest;
    assert runs[1..] == rest;
  }

  /** Number of places where neighbouring items have different keys. */
  function KeyChanges(items: seq<LogItem>): nat
  {
    if |items| <= 1 then 0
    else (if Key(items[0]) != Key(items[1]) then 1 else 0) + KeyChanges(items[1..])
  }

  /** There is one run more than there are key changes. */
  lemma {:induction false} RunCount(items: seq<LogItem>)
    requires items != []
    ensures |Runs(items)| == 1 + KeyChanges(items)
  {
    if |items| > 1 {
      RunCount(items[1..]);
    }
  }

  /** Cutting the first item off a grouping whose first run is longer than one
      leaves a grouping of the other items. */
  lemma TailGrouping(parts: seq<seq<LogItem>>, items: seq<LogItem>)
    requires IsGrouping(parts, items) && parts != [] && |parts[0]| > 1
    ensures IsGrouping([parts[0][1..]] + parts[1..], items[1..])
  {
    var tail := [parts[0][1..]] + parts[1..];
    assert items == parts[0] + Flatten(parts[1..]);
    assert tail[1..] == parts[1..];
    assert Flatten(tail) == items[1..];
    forall i, j | 0 <= i < |tail| && 0 <= j < |tail[i]|
      ensures Key(tail[i][j]) == Key(tail[i][0])
    {
      if i == 0 {
        assert tail[0][j] == parts[0][j + 1];
      } else {
        assert tail[i] == parts[i];
      }
    }
    forall i | 0 <= i < |tail| - 1 ensures Key(tail[i][0]) != Key(tail[i + 1][0]) {
      if i == 0 {
        assert tail[0][0] == parts[0][1];
      } else {
        assert tail[i] == parts[i];
      }
      assert tail[i + 1] == parts[i + 1];
    }
  }

  /** Dropping a first run of one item leaves a grouping of the other items whose
      first run has another key. */
  lemma DropGrouping(parts: seq<seq<LogItem>>, items: seq<LogItem>)
    requires IsGrouping(parts, items) && parts != [] && |parts[0]| == 1
    ensures IsGrouping(parts[1..], items[1..])
    ensures |parts| > 1 ==> Key(parts[1][0]) != Key(items[0])
  {
    assert items == parts[0] + Flatten(parts[1..]);
    assert items[1..] == Flatten(parts[1..]);
    forall i, j | 0 <= i < |parts[1..]| && 0 <= j < |parts[1..][i]|
      ensures Key(parts[1..][i][j]) == Key(parts[1..][i][0])
    {
      assert parts[1..][i] == parts[i + 1];
    }
  }

  /** A grouping whose first run is a single item, followed by the runs of the
      other items, is the runs of all of them. */
  lemma RunsAfterSingle(parts: seq<seq<LogItem>>, items: seq<LogItem>)
    requires IsGrouping(parts, items) && parts != [] && |parts[0]| == 1
    requires parts[1..] == Runs(items[1..])
    ensures parts == Runs(items)
  {
    DropGrouping(parts, items);
    assert items == parts[0] + Flatten(parts[1..]);
    assert parts[0] == [items[0]];
    assert parts == [[items[0]]] + parts[1..];
  }

  /** A grouping whose first run is longer than one item, whose tail grouping is
      the runs of the other items, is the runs of all of them. */
  lemma RunsAfterLong(parts: seq<seq<LogItem>>, items: seq<LogItem>)
    requires IsGrouping(parts, items) && parts != [] && |parts[0]| > 1
    requires [parts[0][1..]] + parts[1..] == Runs(items[1..])
    ensures parts == Runs(items)
  {
    var rest := Runs(items[1..]);
    assert items == parts[0] + Flatten(parts[1..]);
    assert items[0] == parts[0][0];
    assert rest[0] == parts[0][1..] && rest[1..] == parts[1..];
    assert rest[0][0] == parts[0][1];
    assert parts[0] == [items[0]] + parts[0][1..];
    assert parts == [[items[0]] + rest[0]] + rest[1..];
  }

  /** The grouping is unique: any cut into maximal runs is the one `groupby` makes. */
  lemma {:induction false} RunsUnique(parts: seq<seq<LogItem>>, items: seq<LogItem>)
    requires IsGrouping(parts, items)
    ensures parts == Runs(items)
    decreases |items|
  {
    if parts != [] {
      assert items == parts[0] + Flatten(parts[1..]);
      if |parts[0]| == 1 {
        DropGrouping(parts, items);
        RunsUnique(parts[1..], items[1..]);
        RunsAfterSingle(parts, items);
      } else {
        TailGrouping(parts, items);
        RunsUnique([parts[0][1..]] + parts[1..], items[1..]);
        RunsAfterLong(parts, items);
      }
    }
  }

  /** The track rows of each item of a run, in order. */
  function RowsOf(items: seq<LogItem>): (rows: seq<seq<TrackRow>>)
    ensures |rows| == |items| && forall i :: 0 <= i < |items| ==> rows[i] == items[i].rows
  {
    seq(|items|, i requires 0 <= i < |items| => items[i].rows)
  }

  /** One section of the log: the union of the performers, the set of albums, the
      run's key, and the run's track rows concatenated (`flatmap`). */
  function Group(run: seq<LogItem>): (g: LogGroup)
    requires run != []
    ensures (g.channels, g.sampleRate) == Key(run[0])
    ensures forall k :: 0 <= k < |run| ==> run[k].info.performers <= g.performers && run[k].info.album in g.albums
    ensures forall p :: p in g.performers ==> exists k :: 0 <= k < |run| && p in run[k].info.performers
    ensures forall a :: a in g.albums ==> exists k :: 0 <= k < |run| && run[k].info.album == a
    ensures g.tracksDr == Flatten(RowsOf(run))
  {
    LogGroup(
      set k, p | 0 <= k < |run| && p in run[k].info.performers :: p,
      set k | 0 <= k < |run| :: run[k].info.album,
      run[0].info.channelCount,
      run[0].info.sampleRate,
      Flatten(RowsOf(run)))
  }

  /** `make_log_groups`. */
  function MakeLogGroups(items: seq<LogItem>): (groups: seq<LogGroup>)
    ensures |groups| == |Runs(items)|
    ensures forall i :: 0 <= i < |groups| ==> groups[i] == Group(Runs(items)[i])
  {
    var runs := Runs(items);
    seq(|runs|, i requires 0 <= i < |runs| => Group(runs[i]))
  }

  function TracksOf(groups: seq<LogGroup>): (rows: seq<seq<TrackRow>>)
    ensures |rows| == |groups| && forall i :: 0 <= i < |groups| ==> rows[i] == groups[i].tracksDr
  {
    seq(|groups|, i requires 0 <= i < |groups| => groups[i].tracksDr)
  }

  /** Neighbouring sections differ in channel count or sample rate; in particular
      two runs of one format separated by another format stay two sections. */
  lemma AdjacentGroupsDiffer(items: seq<LogItem>)
    ensures var groups := MakeLogGroups(items);
      forall i :: 0 <= i < |groups| - 1 ==>
        (groups[i].channels, groups[i].sampleRate) != (groups[i + 1].channels, groups[i + 1].sampleRate)
  {
  }

  /** There are as many sections as runs: one more than the format changes. */
  lemma GroupCount(items: seq<LogItem>)
    ensures items == [] ==> MakeLogGroups(items) == []
    ensures items != [] ==> |MakeLogGroups(items)| == 1 + KeyChanges(items)
  {
    if items != [] {
      RunCount(items);
    }
  }

  lemma {:induction false} RowsOfAppend(a: seq<LogItem>, b: seq<LogItem>)
    ensures RowsOf(a + b) == RowsOf(a) + RowsOf(b)
  {
  }

  lemma {:induction false} TracksOfRuns(runs: seq<seq<LogItem>>)
    requires forall i :: 0 <= i < |runs| ==> runs[i] != []
    ensures Flatten(seq(|runs|, i requires 0 <= i < |runs| => Group(runs[i]).tracksDr))
            == Flatten(RowsOf(Flatten(runs)))
  {
    var tracks := seq(|runs|, i requires 0 <= i < |runs| => Group(runs[i]).tracksDr);
    if runs != [] {
      TracksOfRuns(runs[1..]);
      var tail := seq(|runs[1..]|, i requires 0 <= i < |runs[1..]| => Group(runs[1..][i]).tracksDr);
      assert tracks[1..] == tail;
      RowsOfAppend(runs[0], Flatten(runs[1..]));
      FlattenAppend(RowsOf(runs[0]), RowsOf(Flatten(runs[1..])));
    }
  }

  /** The sections' track rows, concatenated, are every source's track rows in input
      order: nothing dropped, repeated or moved. */
  lemma GroupsKeepTracks(items: seq<LogItem>)
    ensures Flatten(TracksOf(MakeLogGroups(items))) == Flatten(RowsOf(items))
  {
    var runs := Runs(items);
    var groups := MakeLogGroups(items);
    TracksOfRuns(runs);
    assert TracksOf(groups) == seq(|runs|, i requires 0 <= i < |runs| => Group(runs[i]).tracksDr);
  }

  /** `sub` is the stretch of `rows` that starts at `o`. */
  predicate HoldsAt(rows: seq<TrackRow>, sub: seq<TrackRow>, o: int) {
    0 <= o <= |rows| - |sub| && rows[o..o + |sub|] == sub
  }

  /** The rows of each item of a run form one contiguous stretch of its group's rows. */
  lemma RowsInGroup(run: seq<LogItem>, k: nat)
    requires k < |run|
    ensures exists o :: HoldsAt(Group(run).tracksDr, run[k].rows, o)
  {
    FlattenHoldsAt(RowsOf(run), k);
    assert HoldsAt(Group(run).tracksDr, run[k].rows, |Flatten(RowsOf(run)[..k])|);
  }

  /** Every source lands in a section of its own format, whose performers include the
      source's, whose albums include the source's album, and whose track rows hold the
      source's rows as one contiguous stretch. */
  lemma EverySourceGrouped(items: seq<LogItem>, j: nat)
    requires j < |items|
    ensures var groups := MakeLogGroups(items);
      exists i, o :: 0 <= i < |groups|
        && (groups[i].channels, groups[i].sampleRate) == Key(items[j])
        && items[j].info.performers <= groups[i].performers
        && items[j].info.album in groups[i].albums
        && HoldsAt(groups[i].tracksDr, items[j].rows, o)
  {
    var runs := Runs(items);
    FlattenContains(runs, items[j]);
    var i :| 0 <= i < |runs| && items[j] in runs[i];
    var k :| 0 <= k < |runs[i]| && runs[i][k] == items[j];
    var g := Group(runs[i]);
    RowsInGroup(runs[i], k);
    var o :| HoldsAt(g.tracksDr, items[j].rows, o);
    assert MakeLogGroups(items)[i] == g;
  }

  /** Every performer of a section comes from a source of that section's format. */
  lemma PerformersFromSources(items: seq<LogItem>, i: nat, p: string)
    requires i < |MakeLogGroups(items)| && p in MakeLogGroups(items)[i].performers
    ensures exists j :: (0 <= j < |items| && p in items[j].info.performers &&
      Key(items[j]) == (MakeLogGroups(items)[i].channels, MakeLogGroups(items)[i].sampleRate))
  {
    var runs := Runs(items);
    var g := Group(runs[i]);
    assert MakeLogGroups(items)[i] == g;
    var k :| 0 <= k < |runs[i]| && p in runs[i][k].info.performers;
    var x := runs[i][k];
    assert Key(x) == (g.channels, g.sampleRate);
    InSomeRun(runs, items, i, k);
    var j :| 0 <= j < |items| && items[j] == x;
  }

  /** Every item of a run is one of the items grouped. */
  lemma InSomeRun(runs: seq<seq<LogItem>>, items: seq<LogItem>, i: nat, k: nat)
    requires IsGrouping(runs, items) && i < |runs| && k < |runs[i]|
    ensures runs[i][k] in items
  {
    FlattenContains(runs, runs[i][k]);
  }
}
