/** main.py, the text of the result: `format_time`, `get_group_title`,
    `get_log_path` and the body of `write_log`.  The file itself, the clock and the
    `%9.2f` rendering of peak and RMS are parameters. */
module Report {
  import opened Wrappers
  import opened Text
  import opened Sequences
  import opened Grouping

  // ---------------------------------------------------------------------------
  // format_time

  /** `format_time`: `divmod` by 60 twice (Python floors, as Dafny does for a
      positive divisor); hours are shown when they are non-zero, and then the
      minutes are padded too. */
  function FormatTime(seconds: int): (r: string)
    ensures |r| >= 4 && r[|r| - 3] == ':'
    ensures AllDigits(r[|r| - 2..]) && DigitsValue(r[|r| - 2..]) == seconds % 60
    ensures seconds < 0 ==> r[0] == '-'
  {
    var m, s := seconds / 60, seconds % 60;
    var h, m := m / 60, m % 60;
    var r := if h != 0 then IntToString(h) + ":" + Pad2(m) + ":" + Pad2(s)
             else IntToString(m) + ":" + Pad2(s);
    assert r[|r| - 2..] == Pad2(s);
    r
  }

  /** A clock reading: hours when shown, minutes and seconds. */
  datatype Clock = Clock(hours: Option<nat>, minutes: nat, seconds: nat)

  function ClockSeconds(c: Clock): nat {
    (if c.hours.Some? then c.hours.value * 3600 else 0) + c.minutes * 60 + c.seconds
  }

  /** A leading field as `str` writes a number: digits without a leading zero. */
  predicate LeadField(f: string) {
    f != [] && AllDigits(f) && (|f| == 1 || f[0] != '0')
  }

  /** Reads back `h:mm:ss` or `m:ss`: two-digit trailing fields, an unpadded lead. */
  function ParseClock(t: string): Option<Clock>
  {
    if |t| < 4 || t[|t| - 3] != ':' || !AllDigits(t[|t| - 2..]) then None
    else
      var sec := DigitsValue(t[|t| - 2..]);
      var head := t[..|t| - 3];
      if |head| >= 4 && head[|head| - 3] == ':' && AllDigits(head[|head| - 2..]) && LeadField(head[..|head| - 3]) then
        Some(Clock(Some(DigitsValue(head[..|head| - 3])), DigitsValue(head[|head| - 2..]), sec))
      else if LeadField(head) then
        Some(Clock(None, DigitsValue(head), sec))
      else None
  }

  /** `h:mm:ss` reads back field by field. */
  lemma ParseLongClock(hs: string, ms: string, ss: string)
    requires LeadField(hs) && |ms| == 2 && AllDigits(ms) && |ss| == 2 && AllDigits(ss)
    ensures ParseClock(hs + ":" + ms + ":" + ss)
         == Some(Clock(Some(DigitsValue(hs)), DigitsValue(ms), DigitsValue(ss)))
  {
    var t := hs + ":" + ms + ":" + ss;
    assert t[|t| - 2..] == ss;
    var head := t[..|t| - 3];
    assert head == hs + ":" + ms;
    assert head[|head| - 2..] == ms;
    assert head[..|head| - 3] == hs;
  }

  /** `m:ss` reads back field by field. */
  lemma ParseShortClock(ms: string, ss: string)
    requires LeadField(ms) && |ss| == 2 && AllDigits(ss)
    ensures ParseClock(ms + ":" + ss) == Some(Clock(None, DigitsValue(ms), DigitsValue(ss)))
  {
    var t := ms + ":" + ss;
    assert t[|t| - 2..] == ss;
    var head := t[..|t| - 3];
    assert head == ms;
  }

  /** For a non-negative duration the text reads back as the same number of
      seconds; seconds are below 60, hours are shown exactly from one hour on, and
      then the minutes are below 60 too. */
  lemma FormatTimeRoundTrip(seconds: int)
    requires seconds >= 0
    ensures var c := ParseClock(FormatTime(seconds));
      && c.Some?
      && ClockSeconds(c.value) == seconds
      && c.value.seconds < 60
      && (c.value.hours.Some? <==> seconds >= 3600)
      && (c.value.hours.Some? ==> c.value.minutes < 60)
  {
    var m0, s := seconds / 60, seconds % 60;
    var h, m := m0 / 60, m0 % 60;
    assert seconds == 3600 * h + 60 * m + s;
    if h != 0 {
      assert LeadField(NatToString(h));
      ParseLongClock(NatToString(h), Pad2(m), Pad2(s));
    } else {
      assert LeadField(NatToString(m0));
      ParseShortClock(NatToString(m0), Pad2(s));
    }
  }

  // ---------------------------------------------------------------------------
  // get_group_title

  /** `get_group_title`: the performers, then the albums, each joined by ", ", in
      the order the sets are iterated. */
  function GroupTitle(performers: seq<string>, albums: seq<string>): string
  {
    Join(performers, ", ") + " \U{2014} " + Join(albums, ", ")
  }

  /** The title names every performer and every album. */
  lemma GroupTitleNames(performers: seq<string>, albums: seq<string>)
    ensures forall i :: 0 <= i < |performers| ==> IsInfix(performers[i], GroupTitle(performers, albums))
    ensures forall i :: 0 <= i < |albums| ==> IsInfix(albums[i], GroupTitle(performers, albums))
  {
    var ps, al := Join(performers, ", "), Join(albums, ", ");
    var t := GroupTitle(performers, albums);
    JoinHoldsEach(performers, ", ");
    JoinHoldsEach(albums, ", ");
    var off := |ps| + 3;
    assert t == ps + " \U{2014} " + al;
    forall i | 0 <= i < |performers| ensures IsInfix(performers[i], t) {
      var k :| OccursAt(performers[i], ps, k);
      assert t[k..k + |performers[i]|] == ps[k..k + |performers[i]|];
      assert OccursAt(performers[i], t, k);
    }
    forall i | 0 <= i < |albums| ensures IsInfix(albums[i], t) {
      var k :| OccursAt(albums[i], al, k);
      assert t[off + k..off + k + |albums[i]|] == al[k..k + |albums[i]|];
      assert OccursAt(albums[i], t, off + k);
    }
  }

  // ---------------------------------------------------------------------------
  // get_log_path

  const LogName: string := "dr.txt"

  predicate AllSlashes(s: string) {
    forall i :: 0 <= i < |s| ==> s[i] == '/'
  }

  /** One past the last '/' of `p`, or 0 when it has none. */
  function LastSlashEnd(p: string): (i: nat)
    ensures i <= |p|
    ensures i > 0 ==> p[i - 1] == '/'
    ensures forall j :: i <= j < |p| ==> p[j] != '/'
  {
    if p == [] then 0
    else if p[|p| - 1] == '/' then |p|
    else LastSlashEnd(p[..|p| - 1])
  }

  /** `os.path.dirname` (POSIX): everything up to the last '/', with trailing
      slashes removed unless it is made of slashes only. */
  function Dirname(p: string): (d: string)
    ensures d <= p && |d| <= LastSlashEnd(p)
    ensures d == [] <==> LastSlashEnd(p) == 0
    ensures d != [] && AllSlashes(d) ==> |d| == LastSlashEnd(p)
    ensures d == [] || AllSlashes(d) || d[|d| - 1] != '/'
    ensures forall j :: |d| <= j < |p| ==> (p[j] == '/' <==> j < LastSlashEnd(p))
  {
    var head := p[..LastSlashEnd(p)];
    if head != [] && !AllSlashes(head) then
      var j :| 0 <= j < |head| && head[j] != '/';
      var d := RStrip(head, '/');
      assert |d| > j && d[j] == head[j];
      d
    else head
  }

  /** `os.path.join(directory, 'dr.txt')`. */
  function JoinLogName(directory: string): (r: string)
    ensures directory <= r && |r| >= |LogName| && r[|r| - |LogName|..] == LogName
    ensures |r| == |directory| + |LogName| || (|r| == |directory| + 1 + |LogName| && r[|directory|] == '/')
    ensures directory != [] ==> r[|r| - |LogName| - 1] == '/'
    ensures directory == [] || directory[|directory| - 1] == '/' ==> |r| == |directory| + |LogName|
  {
    if directory == [] || directory[|directory| - 1] == '/' then directory + LogName
    else directory + "/" + LogName
  }

  /** `get_log_path`; whether `inPath` names a directory is a parameter. */
  function GetLogPath(inPath: string, isDir: bool): (r: string)
    ensures |r| >= |LogName| && r[|r| - |LogName|..] == LogName
    ensures isDir ==> inPath <= r
    ensures !isDir ==> Dirname(inPath) <= r
  {
    JoinLogName(if isDir then inPath else Dirname(inPath))
  }

  /** The directory `os.path.dirname` gives back for a path joined under `directory`. */
  function DirPart(directory: string): string {
    if directory != [] && AllSlashes(directory) then directory else RStrip(directory, '/')
  }

  /** After a slash, a name without slashes is the last component. */
  lemma LastSlashOfJoin(x: string, name: string)
    requires x == [] || x[|x| - 1] == '/'
    requires forall j :: 0 <= j < |name| ==> name[j] != '/'
    ensures LastSlashEnd(x + name) == |x|
  {
    var r := x + name;
    assert forall j :: |x| <= j < |r| ==> r[j] == name[j - |x|];
    assert x == [] || r[|x| - 1] == '/';
  }

  /** `RStrip` removes exactly the trailing slash that `JoinLogName` adds. */
  lemma StripAddedSlash(directory: string)
    requires directory != [] && directory[|directory| - 1] != '/'
    ensures !AllSlashes(directory + "/") && !AllSlashes(directory)
    ensures RStrip(directory + "/", '/') == directory
  {
    var x := directory + "/";
    assert x[..|x| - 1] == directory;
    assert x[|x| - 2] != '/';
  }

  /** Once the last '/' closes `x`, `dirname` looks only at `x`. */
  lemma DirnameOfPrefix(x: string, name: string)
    requires LastSlashEnd(x + name) == |x|
    ensures Dirname(x + name) == if x != [] && !AllSlashes(x) then RStrip(x, '/') else x
  {
    assert (x + name)[..|x|] == x;
  }

  lemma JoinedDirname(directory: string)
    ensures Dirname(JoinLogName(directory)) == DirPart(directory)
    ensures var r := JoinLogName(directory); r[LastSlashEnd(r)..] == LogName
  {
    var r := JoinLogName(directory);
    var x := if directory == [] || directory[|directory| - 1] == '/' then directory else directory + "/";
    assert r == x + LogName;
    LastSlashOfJoin(x, LogName);
    DirnameOfPrefix(x, LogName);
    assert r[|x|..] == LogName;
    if x != directory {
      StripAddedSlash(directory);
    }
  }

  /** The log goes into the given directory, or next to the given file: its
      directory part is that directory and its file name is `dr.txt`. */
  lemma LogPathPlacement(inPath: string, isDir: bool)
    ensures var r := GetLogPath(inPath, isDir);
      && r[LastSlashEnd(r)..] == LogName
      && Dirname(r) == (if isDir then DirPart(inPath) else Dirname(inPath))
  {
    var directory := if isDir then inPath else Dirname(inPath);
    JoinedDirname(directory);
  }

  // ---------------------------------------------------------------------------
  // write_log

  /** The DR column: `"DR" + str(dr).ljust(4)`, or `"N/A   "` when there is none. */
  function DrColumn(dr: Option<int>): (r: string)
    ensures dr.None? ==> |r| == 6
    ensures dr.Some? && 0 <= dr.value < 10000 ==> |r| == 6
  {
    if dr.Some? then "DR" + LJust(IntToString(dr.value), 4)
    else "N/A   "
  }

  /** Reads a DR column back. */
  function ParseDrColumn(col: string): Option<Option<int>>
  {
    if col == "N/A   " then Some(None)
    else if |col| >= 2 && col[..2] == "DR" then
      match ParseInt(RStrip(col[2..], ' '))
      case Some(v) => Some(Some(v))
      case None => None
    else None
  }

  /** A number's text ends in a digit, never in padding. */
  lemma IntToStringEndsInDigit(i: int)
    ensures IntToString(i)[|IntToString(i)| - 1] != ' '
  {
    var digits := IntToString(i);
    if i < 0 {
      assert digits[1..] == NatToString(-i);
      assert digits[|digits| - 1] == digits[1..][|digits| - 2];
    }
  }

  /** The DR column names the DR value, or its absence, without loss. */
  lemma DrColumnRoundTrip(dr: Option<int>)
    ensures ParseDrColumn(DrColumn(dr)) == Some(dr)
  {
    if dr.Some? {
      var digits := IntToString(dr.value);
      var col := DrColumn(dr);
      assert col[..2] == "DR" && col[2..] == LJust(digits, 4);
      IntToStringEndsInDigit(dr.value);
      RStripLJust(digits, 4);
      ParseIntToString(dr.value);
    }
  }

  function Rule(c: char): string {
    seq(80, _ => c)
  }

  function Banner(date: string): string {
    "generated by https://github.com/magicgoose/simple_dr_meter\n" + "log date: " + date + "\n\n"
  }

  function SectionHead(title: string): string {
    Rule('-') + "\nAnalyzed: " + title + "\n" + Rule('-') + "\n\n"
    + "DR         Peak         RMS     Duration Track\n" + Rule('-') + "\n"
  }

  function SectionFoot(trackCount: nat, averageDr: int, group: LogGroup): string {
    Rule('-') + "\n\nNumber of tracks:  " + NatToString(trackCount)
    + "\nOfficial DR value: DR" + IntToString(averageDr) + "\n\n"
    + "Samplerate:        " + IntToString(group.sampleRate) + " Hz\n"
    + "Channels:          " + IntToString(group.channels) + "\n" + Rule('=') + "\n\n"
  }

  /** One track's line; `fixed` renders a level as `%9.2f` does. */
  function TrackLine(row: TrackRow, fixed: real -> string): string {
    DrColumn(row.dr) + fixed(row.peak) + " dB" + fixed(row.rms) + " dB"
    + RJust(FormatTime(row.durationSec), 10) + " " + row.name + "\n"
  }

  /** The renderer of one track's line, as a function of the row. */
  function LineOf(fixed: real -> string): TrackRow -> string {
    row => TrackLine(row, fixed)
  }

  /** The lines of the rows, one per row, in order. */
  function TrackLines(rows: seq<TrackRow>, fixed: real -> string): string
  {
    ConcatMap(rows, LineOf(fixed))
  }

  /** `enumerate` lists the members of a set in some order: each one once, and
      nothing else.  The order is the one Python iterates the set in. */
  ghost predicate ListsSets(enumerate: set<string> -> seq<string>) {
    forall names: set<string> ::
      |enumerate(names)| == |names| && forall x :: x in enumerate(names) <==> x in names
  }

  function Section(group: LogGroup, averageDr: int, enumerate: set<string> -> seq<string>,
                   fixed: real -> string): string
    requires ListsSets(enumerate)
  {
    SectionHead(GroupTitle(enumerate(group.performers), enumerate(group.albums)))
    + TrackLines(group.tracksDr, fixed) + SectionFoot(|group.tracksDr|, averageDr, group)
  }

  /** The renderer of one group's section, as a function of the group. */
  function SectionOf(averageDr: int, enumerate: set<string> -> seq<string>,
                     fixed: real -> string): LogGroup -> string
    requires ListsSets(enumerate)
  {
    group => Section(group, averageDr, enumerate, fixed)
  }

  function Sections(groups: seq<LogGroup>, averageDr: int, enumerate: set<string> -> seq<string>,
                    fixed: real -> string): string
    requires ListsSets(enumerate)
  {
    ConcatMap(groups, SectionOf(averageDr, enumerate, fixed))
  }

  /** The text `write_log` writes: a banner, then one section per group. */
  function LogText(groups: seq<LogGroup>, averageDr: int, date: string,
                   enumerate: set<string> -> seq<string>, fixed: real -> string): string
    requires ListsSets(enumerate)
  {
    Banner(date) + Sections(groups, averageDr, enumerate, fixed)
  }

  /** Every row of a group is written in that group's section. */
  lemma TrackLineInSection(group: LogGroup, averageDr: int, enumerate: set<string> -> seq<string>,
                           fixed: real -> string, ri: nat)
    requires ListsSets(enumerate)
    requires ri < |group.tracksDr|
    ensures IsInfix(TrackLine(group.tracksDr[ri], fixed), Section(group, averageDr, enumerate, fixed))
  {
    ConcatMapHoldsEach(group.tracksDr, LineOf(fixed), ri);
    InfixWithin(TrackLine(group.tracksDr[ri], fixed),
                SectionHead(GroupTitle(enumerate(group.performers), enumerate(group.albums))),
                TrackLines(group.tracksDr, fixed), SectionFoot(|group.tracksDr|, averageDr, group));
  }

  /** What a group's section holds, the log holds. */
  lemma SectionLogged(groups: seq<LogGroup>, averageDr: int, date: string,
                      enumerate: set<string> -> seq<string>, fixed: real -> string, gi: nat, x: string)
    requires ListsSets(enumerate)
    requires gi < |groups| && IsInfix(x, Section(groups[gi], averageDr, enumerate, fixed))
    ensures IsInfix(x, LogText(groups, averageDr, date, enumerate, fixed))
  {
    var sections := Sections(groups, averageDr, enumerate, fixed);
    ConcatMapHoldsEach(groups, SectionOf(averageDr, enumerate, fixed), gi);
    InfixTrans(x, Section(groups[gi], averageDr, enumerate, fixed), sections);
    var k :| OccursAt(x, sections, k);
    OccursAfter(x, Banner(date), sections, k);
  }

  /** Every track row of every group is written to the log, as its own line. */
  lemma TrackLineLogged(groups: seq<LogGroup>, averageDr: int, date: string,
                        enumerate: set<string> -> seq<string>, fixed: real -> string, gi: nat, ri: nat)
    requires ListsSets(enumerate)
    requires gi < |groups| && ri < |groups[gi].tracksDr|
    ensures IsInfix(TrackLine(groups[gi].tracksDr[ri], fixed), LogText(groups, averageDr, date, enumerate, fixed))
  {
    TrackLineInSection(groups[gi], averageDr, enumerate, fixed, ri);
    SectionLogged(groups, averageDr, date, enumerate, fixed, gi, TrackLine(groups[gi].tracksDr[ri], fixed));
  }

  /** The header of a section names its title. */
  lemma TitleInHead(title: string)
    ensures IsInfix(title, SectionHead(title))
  {
    var lead := Rule('-') + "\nAnalyzed: ";
    assert SectionHead(title)[|lead|..|lead| + |title|] == title;
    assert OccursAt(title, SectionHead(title), |lead|);
  }

  /** What the title of a group's section names is in that section. */
  lemma TitleInSection(group: LogGroup, averageDr: int, enumerate: set<string> -> seq<string>,
                       fixed: real -> string, x: string)
    requires ListsSets(enumerate)
    requires IsInfix(x, GroupTitle(enumerate(group.performers), enumerate(group.albums)))
    ensures IsInfix(x, Section(group, averageDr, enumerate, fixed))
  {
    var title := GroupTitle(enumerate(group.performers), enumerate(group.albums));
    var head := SectionHead(title);
    var lines := TrackLines(group.tracksDr, fixed);
    TitleInHead(title);
    InfixTrans(x, title, head);
    InfixBefore(x, head, lines);
    InfixBefore(x, head + lines, SectionFoot(|group.tracksDr|, averageDr, group));
  }

  /** Every performer and every album of every group is named in the log. */
  lemma GroupNamesLogged(groups: seq<LogGroup>, averageDr: int, date: string,
                         enumerate: set<string> -> seq<string>, fixed: real -> string, gi: nat, name: string)
    requires ListsSets(enumerate)
    requires gi < |groups| && (name in groups[gi].performers || name in groups[gi].albums)
    ensures IsInfix(name, LogText(groups, averageDr, date, enumerate, fixed))
  {
    var g := groups[gi];
    var performers, albums := enumerate(g.performers), enumerate(g.albums);
    GroupTitleNames(performers, albums);
    if name in g.performers {
      assert name in performers;
      var i :| 0 <= i < |performers| && performers[i] == name;
    } else {
      assert name in albums;
      var i :| 0 <= i < |albums| && albums[i] == name;
    }
    TitleInSection(g, averageDr, enumerate, fixed, name);
    SectionLogged(groups, averageDr, date, enumerate, fixed, gi, name);
  }

  /** The inner loop of `write_log`: one line per row, counting the rows written. */
  method WriteTrackLines(rows: seq<TrackRow>, fixed: real -> string) returns (lines: string, trackCount: nat)
    ensures lines == TrackLines(rows, fixed)
    ensures trackCount == |rows|
  {
    lines := "";
    trackCount := 0;
    while trackCount < |rows|
      invariant trackCount <= |rows|
      invariant lines == TrackLines(rows[..trackCount], fixed)
    {
      ConcatMapStep(rows, trackCount, LineOf(fixed));
      lines := lines + TrackLine(rows[trackCount], fixed);
      trackCount := trackCount + 1;
    }
    assert rows[..trackCount] == rows;
  }

  /** One pass of the outer loop of `write_log`: a group's heading, its track
      lines and its footer, which reports the number of lines written. */
  method WriteSection(group: LogGroup, averageDr: int, enumerate: set<string> -> seq<string>,
                      fixed: real -> string) returns (section: string, trackCount: nat)
    requires ListsSets(enumerate)
    ensures section == Section(group, averageDr, enumerate, fixed)
    ensures trackCount == |group.tracksDr|
  {
    var groupName := GroupTitle(enumerate(group.performers), enumerate(group.albums));
    var lines;
    lines, trackCount := WriteTrackLines(group.tracksDr, fixed);
    section := SectionHead(groupName) + lines + SectionFoot(trackCount, averageDr, group);
  }

  /** `write_log`: the banner, then each group's section in order; `enumerate`
      gives the iteration order of a set and `date` the banner's timestamp. */
  method WriteLog(groups: seq<LogGroup>, averageDr: int, date: string,
                  enumerate: set<string> -> seq<string>, fixed: real -> string)
    returns (text: string)
    requires ListsSets(enumerate)
    ensures text == LogText(groups, averageDr, date, enumerate, fixed)
  {
    text := Banner(date);
    var g := 0;
    while g < |groups|
      invariant g <= |groups|
      invariant text == Banner(date) + Sections(groups[..g], averageDr, enumerate, fixed)
    {
      var section, trackCount := WriteSection(groups[g], averageDr, enumerate, fixed);
      ConcatMapStep(groups, g, SectionOf(averageDr, enumerate, fixed));
      AppendAssoc(Banner(date), Sections(groups[..g], averageDr, enumerate, fixed), section);
      text := text + section;
      g := g + 1;
    }
    assert groups[..g] == groups;
  }
}
