# simple_dr_meter: the analysis pipeline, in Dafny

This project models the core of `simple_dr_meter`, a command-line dynamic-range (DR) meter. The model covers these steps:

- probing an audio file for its channel count and sample rate;
- reading the decoder's raw little-endian float32 stream into blocks of `channels × frames` samples;
- pairing blocks with tracks;
- collecting each track's DR, peak, RMS and duration into log rows;
- computing the official DR, the rounded mean of the collected DR values;
- grouping the analysed sources by `(channels, sample rate)`;
- rendering the `dr.txt` log text.

The model is split into these modules:

- `AudioIo` (`audio_io.dfy`) models `audio_io/audio_io.py`:
  - the parameter scan of the ffprobe report;
  - the format check;
  - the block reader, a `Pipe` class holding a byte stream and a read position, read through a reused `array` buffer.
- `Analysis` (`analysis.dfy`) models `analyze_dr` in `main.py`:
  - thread sizing;
  - the zip of blocks with tracks;
  - `process_results`, an `Aggregator` class whose fields are the lists the source appends to;
  - half-to-even rounding;
  - the official DR;
  - the outer loop over sources.
- `Grouping` (`grouping.dfy`) models `flatmap` and `make_log_groups`. The grouping is `itertools.groupby`: maximal runs of consecutive equal keys.
- `Report` (`report.dfy`) models these parts of `main.py`:
  - `format_time`;
  - `get_group_title`;
  - `get_log_path`, with POSIX `dirname`/`join` semantics;
  - `write_log`: its DR column, track lines, section header and footer.
- `Text`, `Sequences`, `Arith` and `Wrappers` hold support code: the `str`/`ljust`/`rjust`/`join` renderings, flattening, arithmetic facts, and `Option`/`Result`.

Each imperative loop in the source is a `method` with a `while` loop. Its contract ties the result or the new state to a specification function. Lemmas then prove what the source promises about that function: round trips, uniqueness of the grouping, iff-characterisations and bounds.

## Model

| member | source | states |
|---|---|---|
| AudioIo.KeyRun | audio_io/audio_io.py:50 | the key part of the regex match is the longest prefix of `[a-z_]` characters |
| AudioIo.DigitRun | audio_io/audio_io.py:50 | the value part of the regex match is the longest prefix of digits |
| AudioIo.MatchAt | audio_io/audio_io.py:50 | a match at the front of the text is a non-empty `[a-z_]` key, `=`, and the longest digit run after it, whose value it carries; no match means no key at the front is followed by `=` and a digit |
| AudioIo.FindAll | audio_io/audio_io.py:50 | every match `re.finditer` yields has a well-formed key |
| AudioIo.FindAllFound | audio_io/audio_io.py:50 | every pair `re.finditer` yields is read off the text: at some offset that is the start or follows a non-key character stand its whole key, `=`, and the full digit run spelling its value |
| AudioIo.FindAllSplit | audio_io/audio_io.py:50 | no match straddles a point that follows a non-key character and precedes a non-digit: the matches of the whole are the matches of the two parts, in order |
| AudioIo.FindAllFinds | audio_io/audio_io.py:50 | a `key=digits` that stands after a non-key character and before a non-digit is found, with its whole key and value, in its place among the matches of the text around it |
| AudioIo.Collect | audio_io/audio_io.py:49-52 | the dictionary after one `d.update` per match, in order |
| AudioIo.Values | audio_io/audio_io.py:54-57 | `values(**d)` binds exactly `channels` and `sample_rate`, and raises for any other key set |
| AudioIo.AudioParams | audio_io/audio_io.py:48-57 | `_parse_audio_params` succeeds exactly when the matched keys are `channels` and `sample_rate`, and otherwise raises naming the keys it found |
| AudioIo.ParseAudioParams | audio_io/audio_io.py:48-57 | the loop that updates the dictionary match by match gives exactly `AudioParams` of the whole text |
| AudioIo.CollectKeys | audio_io/audio_io.py:49-52 | the dictionary's keys are the keys it started with plus every matched key |
| AudioIo.LastOccurrenceWins | audio_io/audio_io.py:52 | for a repeated key, `d.update` leaves the value of its last occurrence |
| AudioIo.KeptWhenAbsent | audio_io/audio_io.py:52 | a key that no later match names keeps its value |
| AudioIo.AudioParamsMeaning | audio_io/audio_io.py:48-57 | the parse succeeds iff the matched keys are exactly `channels` and `sample_rate`; otherwise it fails with the key set; each returned value is the value of that key's last occurrence |
| AudioIo.FindAllSkipsText | audio_io/audio_io.py:50 | text without `=` that does not end in a key character contributes no match |
| AudioIo.MatchAtPrinted | audio_io/audio_io.py:50 | a printed `key=digits` line is matched with exactly its key and decimal value |
| AudioIo.FindAllLines | audio_io/audio_io.py:50 | the printed `key=value` lines are matched back as the same parameters, in order |
| AudioIo.ProbeReportMatches | audio_io/audio_io.py:60-73 | the report ffprobe prints for the two requested entries yields exactly those two parameters |
| AudioIo.ProbeReportRoundTrip | audio_io/audio_io.py:48-73 | parsing the ffprobe stream report gives back the channel count and sample rate it reports |
| AudioIo.CheckFormat | audio_io/audio_io.py:28-31 | accepted iff `channels >= 1` and `sample_rate >= 8000`; on success the fields are those given; otherwise an invalid-format error with both values |
| AudioIo.ReadAudioInfo | audio_io/audio_io.py:26-31 | a parse failure is passed on; an out-of-range format fails with its values; otherwise the path and probed parameters are returned |
| AudioIo.Pipe.constructor | audio_io/audio_io.py:78-88 | the decoder's output is read from its first byte |
| AudioIo.Pipe.ReadInto | audio_io/audio_io.py:97 | `readinto` fills `min(remaining, buffer size)` bytes with the next bytes of the stream, advances by that much and leaves the rest of the buffer alone |
| AudioIo.Samples | audio_io/audio_io.py:101 | `frombuffer(count=read_size // 4)` gives one sample per whole four bytes |
| AudioIo.Deinterleave | audio_io/audio_io.py:102 | the Fortran-order reshape gives `channels` rows of `samples / channels` each |
| AudioIo.InterleaveDeinterleave | audio_io/audio_io.py:101-102 | the reshape loses nothing: interleaving the rows gives back the read samples, the empty read included |
| AudioIo.BlocksOf | audio_io/audio_io.py:96-103 | the only way the generator fails is a reshape of a read whose sample count is not a multiple of the channel count |
| AudioIo.BlocksOfRead | audio_io/audio_io.py:96-103 | one step of the generator: a ragged read fails to reshape, and a whole read yields its block, then the rest |
| AudioIo.ReadAudioBlocks | audio_io/audio_io.py:76-103 | the read loop over the reused buffer yields exactly the blocks, and the reshape failure, that `BlocksOf` specifies for the stream's unread bytes |
| AudioIo.ReadAudioData | audio_io/audio_io.py:34-37 | the source keeps its info and block size; its blocks are those of the stream; a negative buffer size fails before reading |
| AudioIo.BlocksShape | audio_io/audio_io.py:96-103 | every block has `channels` rows of equal length, at most `samples_per_block` frames, and every block but the last is full |
| AudioIo.BlocksFailWhenRagged | audio_io/audio_io.py:101-102 | the stream ends in a reshape failure iff its whole-sample count is not a multiple of the channel count |
| AudioIo.BlocksReinterleave | audio_io/audio_io.py:96-103 | for a stream of whole frames there is no failure, and the blocks re-interleaved give back every sample in order |
| AudioIo.BlocksNonEmpty | audio_io/audio_io.py:96-103 | when the stream length is a multiple of four, no block is empty |
| AudioIo.StrayBytesGiveEmptyBlock | audio_io/audio_io.py:97-103 | two stray trailing bytes yield a block with zero frames |
| Analysis.ThreadCounts | main.py:164-165 | the outer count is `min(files, cpus)`, at least 1; the inner count is the largest that keeps outer × inner within the CPU count |
| Analysis.ChooseMapImpl | main.py:158-162 | at most one thread means plain `map`; otherwise a pool of that many threads with the given chunk size |
| Analysis.MapImplChoice | main.py:158-167 | the outer map is sequential iff there is one file or one CPU; the inner map is sequential iff fewer than twice the outer count of CPUs |
| Analysis.RoundHalfEven | main.py:193 | `round` of `num / den` is the floor of the quotient or one more |
| Analysis.RoundHalfEvenNearest | main.py:193 | `round` gives an integer nearest to the quotient, and the even one on a tie |
| Analysis.RoundHalfEvenUnique | main.py:193 | that integer is the only one with this property |
| Analysis.OfficialDr | main.py:207-210 | there is no official DR exactly when no DR value was collected |
| Analysis.OfficialDrBounds | main.py:210 | the official DR lies between the smallest and largest collected DR |
| Analysis.SumPermutation | main.py:208-210 | the sum of the DR values depends only on their multiset |
| Analysis.OfficialDrOrderFree | main.py:203-210 | the official DR is the same for any order in which the DR values were collected |
| Analysis.AnalyzePartTracks | main.py:169-172 | the zip pairs block i with track i, and stops at the shorter; a reader failure surfaces iff the blocks run out first or together |
| Analysis.LogRow | main.py:193-196 | a track's log row: its DR, peak, RMS, `round(sample_count / MEASURE_SAMPLE_RATE)` and label |
| Analysis.TrackLabel | main.py:196 | the label `NN-name`, the index padded to two digits |
| Analysis.LogRows | main.py:193-196 | one log row per analysed track, in order, with its DR, peak, RMS, rounded duration and label |
| Analysis.TrackResults | main.py:188 | one `(track, dr)` result per analysed track, in order |
| Analysis.DrOf | main.py:190-191 | what one track adds to `dr_items`: its DR when truthy, nothing otherwise |
| Analysis.TruthyDrs | main.py:186-191 | no collected DR value is 0 |
| Analysis.TruthyDrsMeaning | main.py:190-191 | a value is collected iff it is the non-zero DR of some track; at most one value per track |
| Analysis.TruthyDrsCount | main.py:190-191 | each non-zero value is collected exactly as many times as tracks report it, and 0 never |
| Analysis.TrackLabelRoundTrip | main.py:196 | the label `NN-name` gives back the track's index and name |
| Analysis.Aggregator.constructor | main.py:178-179 | the DR list, the log list and the callback record start empty |
| Analysis.Aggregator.ProcessResults | main.py:181-197 | appends one log item with all rows, records every callback, appends the truthy DRs and returns the results or the reader's failure |
| Analysis.SourceStream | audio_io/audio_io.py:34-37 | the block stream of a source's decoded bytes, or the error a negative buffer size raises |
| Analysis.Part | main.py:174-176 | `analyze_part`: a source's blocks of `3 * MEASURE_SAMPLE_RATE` frames zipped with its tracks |
| Analysis.AnalyzeDr | main.py:148-214 | no sources is an error; otherwise success iff every source reads cleanly and some DR is truthy; on success the collected lists are the per-source ones concatenated, and the result is the grouped log and the official DR; a failure is the first source's read error, or no DR values when all sources read |
| Grouping.Key | main.py:81 | the grouping key: channel count and sample rate |
| Grouping.Runs | main.py:81-83 | the runs partition the items into non-empty runs of one key, with the keys of neighbouring runs different |
| Grouping.RunsUnique | main.py:81-83 | any such partition is exactly `Runs`, so the grouping is determined by the items |
| Grouping.RunCount | main.py:81-83 | there is one run more than the number of key changes |
| Grouping.Group | main.py:84-93 | a group has its run's key; its performers and albums are exactly the union over its sources; its rows are its sources' rows concatenated in order |
| Grouping.MakeLogGroups | main.py:79-93 | one group per run, in order |
| Grouping.AdjacentGroupsDiffer | main.py:81-83 | neighbouring groups differ in channels or sample rate |
| Grouping.GroupCount | main.py:79-93 | no items give no groups; otherwise the count is one plus the key changes |
| Grouping.GroupsKeepTracks | main.py:87 | the groups' track rows, flattened, are every source's rows in source order |
| Grouping.RowsInGroup | main.py:87 | the rows of each source of a run form one contiguous stretch of the group's rows |
| Grouping.EverySourceGrouped | main.py:83-89 | every source lands in a group with its key, performers and album, whose rows hold the source's rows as one contiguous stretch |
| Grouping.PerformersFromSources | main.py:85 | every performer in a group comes from a source of that key |
| Sequences.Flatten | main.py:74-76 | `flatmap`: the parts concatenated in order; what it holds is stated by `FlattenContains`, `FlattenAppend` and `FlattenHoldsAt` |
| Sequences.FlattenHoldsAt | main.py:74-76 | each part lies in the concatenation as one slice, right after the parts before it |
| Sequences.FlattenAppend | main.py:74-76 | `flatmap` over two lists is the concatenation of the two |
| Sequences.FlattenContains | main.py:74-76 | an element is in the flattened list iff it is in one of the inner lists |
| Report.FormatTime | main.py:38-44 | the text ends in `:` and two digits giving `seconds mod 60`; negative input starts with `-` |
| Report.FormatTimeRoundTrip | main.py:38-44 | reading the clock text back gives the seconds; the first field has no leading zero, the others two digits; an hour part is present iff there is at least one hour, and the minutes and seconds below it are under 60 |
| Report.GroupTitle | main.py:34-35 | the performers joined by `, `, an em dash, then the albums joined by `, ` |
| Report.GroupTitleNames | main.py:34-35 | every performer and every album appears in the group title |
| Report.LastSlashEnd | main.py:22 | the index just past the path's last `/` |
| Report.Dirname | main.py:22 | `dirname` is a prefix no longer than the part up to the last `/`; it is empty iff there is no `/`; it ends in a non-slash, or it is made of slashes and is then the whole part up to the last `/` |
| Report.JoinLogName | main.py:23 | `os.path.join(directory, 'dr.txt')` starts with the directory and ends with `dr.txt`; it adds a `/` between them exactly when the directory is not empty and does not already end in `/` |
| Report.GetLogPath | main.py:18-23 | the log path ends in `dr.txt` and starts with the input when it is a directory, else with its `dirname` |
| Report.JoinedDirname | main.py:23 | the joined path ends in `dr.txt`, and its `dirname` is the directory it was joined to |
| Report.LogPathPlacement | main.py:18-23 | the log is named `dr.txt`; it sits in the input directory, or beside the input file |
| Report.DrColumn | main.py:61 | the DR column is six characters for a missing DR and for DR values below 10000 |
| Report.DrColumnRoundTrip | main.py:61 | the DR column reads back as the DR or as `N/A` |
| Report.Banner | main.py:53-54 | the banner line with the log date |
| Report.SectionHead | main.py:58 | the section header naming the group title |
| Report.TrackLine | main.py:60-66 | one track's line: DR column, peak, RMS, right-justified duration and label |
| Report.SectionFoot | main.py:68-69 | the footer: track count, official DR, sample rate and channels |
| Report.TrackLineInSection | main.py:58-67 | each row of a group is written in that group's section |
| Report.SectionLogged | main.py:55-69 | what a group's section holds is in the log |
| Report.TrackLineLogged | main.py:55-66 | every track row of every group is written to the log |
| Report.TitleInSection | main.py:56-58 | what a group's title names is in its section |
| Report.GroupNamesLogged | main.py:55-58 | every performer and every album of every group is named in the log, when `enumerate` lists each set exactly |
| Report.WriteTrackLines | main.py:59-67 | the loop writes one line per row in order, and counts the rows |
| Report.WriteSection | main.py:55-69 | the header, the rows and the footer of a group, with the track count equal to the number of rows |
| Report.WriteLog | main.py:47-71 | the log is the banner followed by one section per group, in order |
| Text.IntToString | main.py:61 | `str` of an integer: its decimal digits, with `-` when negative |
| Text.Join | main.py:35 | `str.join`: the elements with the separator between them |
| Text.NatToString | main.py:68 | the decimal digits of `n`, with no leading zero |
| Text.Pad2 | main.py:196 | `:02d`: two digits for values below 100, otherwise the plain decimal text |
| Text.LJust | main.py:61 | `ljust`: the text, then spaces up to the width |
| Text.RJust | main.py:65 | `rjust`: spaces up to the width, then the text |
| Text.JoinHoldsEach | main.py:35 | `", ".join` keeps every name, and its length is the names' total plus the separators |
| Text.ParseIntToString | main.py:61 | `str(dr)` reads back as `dr` |
| Text.RStripLJust | main.py:61 | the padding `ljust` adds can be stripped back off |

## Left out

- The ffprobe and ffmpeg processes are left out. The probe's text output and the decoder's byte stream are inputs; a non-zero ffprobe exit code is not modelled.
- Samples are opaque four-byte values. No float32 decoding or arithmetic is modelled.
- `compute_dr` (the DR algorithm itself) is not part of this model. It is a function parameter that returns a track's DR, peak, RMS and sample count.
- `MEASURE_SAMPLE_RATE` is defined outside these files and is a parameter (`msr`, positive).
- The `%9.2f` rendering of peak and RMS is a parameter (`fixed`). The log date, taken from the clock, is a parameter.
- The order in which Python iterates a `set` is a parameter (`enumerate`). It decides the order of names in a group title. The log functions require that `enumerate` lists every member of a set exactly once and nothing else.
- `os.path.isdir` is a boolean parameter of `GetLogPath`. `os.path.exists`, opening with mode `'x'`, writing the file, `print`, `argparse`, `main` and `fix_tty` are left out.
- The CUE sheet and folder resolution that builds a source's performers, album and track list is left out. These fields are inputs of `ReadAudioInfo`. The `AudioSourceInfo` in `audio_io.py` has only path, channels and sample rate; the model follows `main.py`, which reads the other fields.
- Analysis.AnalyzeDr: the outer and inner thread pools are modelled as processing sources one after another, in input order. `imap_unordered` may complete sources in any order, so the real log and DR list can be a reordering of the modelled ones. The official DR does not depend on that order (`OfficialDrOrderFree`); the grouping does.
- Analysis.AnalyzeDr: `keep_precision` is left out, and so is the median. With `keep_precision` the mean is not rounded and no log is written. The model is the default path.
- Analysis.RoundHalfEvenNearest: the model rounds the exact rational value. The source rounds a float mean, which may differ for sums too large for a double.
- Analysis.LogRow: the duration is `round(sample_count / MEASURE_SAMPLE_RATE)` (main.py:193) on a float quotient; the model rounds the exact quotient. For a sample count `a` below 2^52 and a rate `b`, a quotient that is not a tie lies at least `1/(2b)` from the nearest tie, while the float division errs by at most `a/b * 2^-53`, which is less; ties themselves are exact. So the two agree. This agreement is argued here, not proved.
- Analysis.Aggregator.ProcessResults: the `if dr:` append is written as appending a list that is empty for a falsy DR. The collected values are the same.
- AudioIo.ReadAudioBlocks: the source yields numpy views of the one reused buffer. The model yields copies, so later overwrites of the buffer are not visible in earlier blocks.
- `readinto` on the decoder's stdout is a `BufferedReader` over a blocking pipe. It reads until the buffer is full or the stream ends, and `Pipe.ReadInto` does the same.
- Report.FormatTime: the round trip is stated for non-negative durations only, which is all the source produces. For negative input only the leading `-` and the last two digits are stated.
- Report.DrColumn: its own contract states only the column width. What the column says is stated by `DrColumnRoundTrip`.
- main.py:12 imports `read_audio_info` and `read_audio_data` from the `audio_io` package, whose `__init__` is not part of this model. The model assumes that this `read_audio_data` is the one in `audio_io/audio_io.py`, so each item of `blocks_generator` is one block of at most `3 * MEASURE_SAMPLE_RATE` frames, and the `zip` at main.py:170 gives each track one such block. `Part`, `AnalyzePartTracks` and their failure condition rest on that assumption.

## Notes

- main.py:190 tests `if dr:`, so a DR of 0 is not collected for the official mean, just like a missing DR.
- main.py:170 zips the block generator with the track list; the shorter of the two ends the pairing.
- audio_io/audio_io.py:101-102 yields a shorter last block only when the remaining whole samples divide evenly among the channels. Otherwise the reshape raises, and the model returns that failure.
