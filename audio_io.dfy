/** audio_io/audio_io.py: the probe-output parser, the format check, and the block
    reader that turns the decoder's raw interleaved float32 stream into
    per-channel blocks.  The decoder and prober processes are not modelled: their
    output is an input here (a string for the probe, a byte sequence for the
    decoder), and each 4-byte sample is kept as an opaque value. */
module AudioIo {
  import opened Wrappers
  import opened Text
  import opened Sequences
  import opened Arith

  newtype Byte = x: int | 0 <= x < 256

  /** One little-endian float32 sample, kept as its four bytes. */
  datatype Sample = Sample(b0: Byte, b1: Byte, b2: Byte, b3: Byte)

  /** A de-interleaved block: one row per channel, one column per frame. */
  type Block = seq<seq<Sample>>

  datatype TrackInfo = TrackInfo(name: string, globalIndex: int)

  /** The source record.  The fields after `sampleRate` are the ones main.py reads
      (`performers`, `album`, `tracks`); they come from the resolver, which is not
      part of this model, and are carried through unchanged. */
  datatype AudioSourceInfo = AudioSourceInfo(
    path: string,
    channelCount: int,
    sampleRate: int,
    performers: set<string>,
    album: string,
    tracks: seq<TrackInfo>)

  datatype Error =
    | ParamsMismatch(keys: set<string>)            // `values(**d)` with missing or extra keys
    | InvalidFormat(channels: int, sampleRate: int) // `sys.exit('invalid format: ...')`
    | ReshapeFailed(sampleCount: nat, channelCount: nat) // numpy cannot reshape the read
    | NegativeBufferSize(size: int)                 // `bytearray` of a negative size

  /** What the block generator yields before it ends, and the error it ends with, if any. */
  datatype BlockStream = BlockStream(blocks: seq<Block>, failure: Option<Error>)

  datatype AudioSource = AudioSource(
    sourceInfo: AudioSourceInfo,
    samplesPerBlock: nat,
    blocks: BlockStream)

  // ---------------------------------------------------------------------------
  // _parse_audio_params

  predicate IsKeyChar(c: char) {
    'a' <= c <= 'z' || c == '_'
  }

  predicate AllKeyChars(s: string) {
    forall i :: 0 <= i < |s| ==> IsKeyChar(s[i])
  }

  /** Length of the longest prefix of `s` made of `[a-z_]`. */
  function KeyRun(s: string): (n: nat)
    ensures n <= |s| && AllKeyChars(s[..n])
    ensures n < |s| ==> !IsKeyChar(s[n])
  {
    if s != [] && IsKeyChar(s[0]) then
      var n := 1 + KeyRun(s[1..]);
      assert s[..n] == [s[0]] + s[1..][..n - 1];
      n
    else 0
  }

  /** Length of the longest prefix of `s` made of `[0-9]`. */
  function DigitRun(s: string): (n: nat)
    ensures n <= |s| && AllDigits(s[..n])
    ensures n < |s| ==> !IsDigit(s[n])
  {
    if s != [] && IsDigit(s[0]) then
      var n := 1 + DigitRun(s[1..]);
      assert s[..n] == [s[0]] + s[1..][..n - 1];
      n
    else 0
  }

  datatype Param = Param(key: string, value: nat)

  predicate WellFormedKey(key: string) {
    key != [] && AllKeyChars(key)
  }

  /** `s` begins with a match for `p` that covers `n` characters: the key, `=`, and
      the longest run of digits after it, which spells the value. */
  predicate MatchedAs(s: string, p: Param, n: nat) {
    var k := |p.key|;
    && WellFormedKey(p.key) && k + 1 < n <= |s|
    && s[..k] == p.key && s[k] == '='
    && AllDigits(s[k + 1..n]) && DigitsValue(s[k + 1..n]) == p.value
    && (n == |s| || !IsDigit(s[n]))
  }

  /** A key run ends at the first character that cannot be in a key. */
  lemma KeyRunAt(s: string, k: nat)
    requires k < |s| && AllKeyChars(s[..k]) && !IsKeyChar(s[k])
    ensures KeyRun(s) == k
  {
  }

  /** When the key run at the front is not followed by `=` and a digit, no key at
      the front is. */
  lemma NoMatchHere(s: string)
    requires !(0 < KeyRun(s) && KeyRun(s) + 1 < |s| && s[KeyRun(s)] == '=' && IsDigit(s[KeyRun(s) + 1]))
    ensures forall k :: 0 < k < |s| - 1 && AllKeyChars(s[..k]) && s[k] == '=' ==> !IsDigit(s[k + 1])
  {
    forall k | 0 < k < |s| - 1 && AllKeyChars(s[..k]) && s[k] == '='
      ensures !IsDigit(s[k + 1])
    {
      KeyRunAt(s, k);
    }
  }

  /** The match of `([a-z_]+)=([0-9]+)` that starts at the first character of `s`,
      if there is one, with the number of characters it covers.  The key run is
      greedy and only `=` may follow it, so no shorter key can match either. */
  function MatchAt(s: string): (r: Option<(Param, nat)>)
    ensures r.Some? ==> 0 < r.value.1 <= |s| && WellFormedKey(r.value.0.key)
    ensures r.Some? ==> MatchedAs(s, r.value.0, r.value.1)
    ensures r.None? ==>
      forall k :: 0 < k < |s| - 1 && AllKeyChars(s[..k]) && s[k] == '=' ==> !IsDigit(s[k + 1])
  {
    var k := KeyRun(s);
    if 0 < k && k + 1 < |s| && s[k] == '=' && IsDigit(s[k + 1]) then
      var t := s[k + 1..];
      var digits := t[..DigitRun(t)];
      assert digits == s[k + 1..k + 1 + |digits|];
      assert DigitRun(t) < |t| ==> s[k + 1 + |digits|] == t[DigitRun(t)];
      Some((Param(s[..k], DigitsValue(digits)), k + 1 + |digits|))
    else
      NoMatchHere(s);
      None
  }

  /** `re.finditer(r'([a-z_]+)=([0-9]+)', s)`: the matches from left to right;
      after a match the scan resumes where it ended, otherwise one character on. */
  function FindAll(s: string): (ps: seq<Param>)
    ensures forall i :: 0 <= i < |ps| ==> WellFormedKey(ps[i].key)
    decreases |s|
  {
    if s == [] then []
    else
      match MatchAt(s)
      case Some((p, n)) => [p] + FindAll(s[n..])
      case None => FindAll(s[1..])
  }

  /** A match for `p` covering `n` characters starts at offset `o` of `s`, and its
      key is not cut short on the left: `o` is the start or follows a non-key character. */
  predicate MatchStartsAt(s: string, p: Param, o: int, n: nat) {
    0 <= o <= |s| && (o == 0 || !IsKeyChar(s[o - 1])) && MatchedAs(s[o..], p, n)
  }

  /** Some match for `p` starts in `s` without cutting a key short. */
  ghost predicate FoundIn(s: string, p: Param) {
    exists o, n :: MatchStartsAt(s, p, o, n)
  }

  /** A key character in front of a match extends its key, so the scan matches
      already one character earlier. */
  lemma MatchAtExtends(s: string, p: Param, m: nat)
    requires s != [] && IsKeyChar(s[0]) && MatchedAs(s[1..], p, m)
    ensures MatchAt(s).Some?
  {
    var t, j := s[1..], |p.key|;
    var k := 1 + j;
    assert s[..k] == [s[0]] + t[..j];
    assert AllKeyChars(s[..k]);
    assert t[j + 1..m][0] == t[j + 1] == s[k + 1];
    assert s[k] == '=' && IsDigit(s[k + 1]);
  }

  /** Every pair `re.finditer` returns is read off a match in `s`: at some offset
      that does not cut a key short stand its key, `=`, and the full run of digits
      that spells its value. */
  lemma {:induction false} FindAllFound(s: string, i: nat)
    requires i < |FindAll(s)|
    ensures FoundIn(s, FindAll(s)[i])
    decreases |s|
  {
    var n, head := ScanFirst(s);
    if i < |head| {
      FoundFirst(s, n, head);
    } else {
      var q := FindAll(s[n..])[i - |head|];
      assert FindAll(s)[i] == q;
      FindAllFound(s[n..], i - |head|);
      FoundAfterScan(s, n, head, q);
    }
  }

  /** The scan's first step at the front of `s`: one match covering `n` characters,
      or none and a step of one character. */
  predicate ScannedAs(s: string, n: nat, head: seq<Param>) {
    && 1 <= n <= |s| && |head| <= 1
    && (head != [] ==> MatchAt(s) == Some((head[0], n)))
    && (head == [] ==> MatchAt(s).None? && n == 1)
  }

  lemma ScanFirst(s: string) returns (n: nat, head: seq<Param>)
    requires s != []
    ensures ScannedAs(s, n, head) && FindAll(s) == head + FindAll(s[n..])
  {
    var r := MatchAt(s);
    if r.Some? {
      FindAllMatched(s);
      n, head := r.value.1, [r.value.0];
    } else {
      FindAllUnmatched(s);
      n, head := 1, [];
    }
  }

  lemma FoundFirst(s: string, n: nat, head: seq<Param>)
    requires ScannedAs(s, n, head) && head != []
    ensures FoundIn(s, head[0])
  {
    assert s[0..] == s;
    assert MatchStartsAt(s, head[0], 0, n);
  }

  lemma FoundAfterScan(s: string, n: nat, head: seq<Param>, q: Param)
    requires ScannedAs(s, n, head) && FoundIn(s[n..], q)
    ensures FoundIn(s, q)
  {
    if head != [] {
      FoundAfterMatch(s, head[0], n, q);
    } else {
      FoundAfterSkip(s, q);
    }
  }

  /** A match found after the scan's previous match is found in the whole text. */
  lemma FoundAfterMatch(s: string, p: Param, n: nat, q: Param)
    requires MatchAt(s) == Some((p, n)) && FoundIn(s[n..], q)
    ensures FoundIn(s, q)
  {
    var o, m :| MatchStartsAt(s[n..], q, o, m);
    assert s[n..][o..] == s[n + o..];
    assert IsDigit(s[n - 1]) by {
      assert s[|p.key| + 1..n][n - |p.key| - 2] == s[n - 1];
    }
    assert o > 0 ==> s[n + o - 1] == s[n..][o - 1];
    assert MatchStartsAt(s, q, n + o, m);
  }

  /** A match found after a skipped character is found in the whole text: the
      skipped character cannot be part of its key, or the scan had matched there. */
  lemma FoundAfterSkip(s: string, q: Param)
    requires s != [] && MatchAt(s).None? && FoundIn(s[1..], q)
    ensures FoundIn(s, q)
  {
    var o, m :| MatchStartsAt(s[1..], q, o, m);
    assert s[1..][o..] == s[1 + o..];
    if o == 0 && IsKeyChar(s[0]) {
      MatchAtExtends(s, q, m);
      assert false;
    }
    assert o > 0 ==> s[o] == s[1..][o - 1];
    assert MatchStartsAt(s, q, 1 + o, m);
  }

  /** The dictionary after `d.update({key: value})` for each match in turn. */
  function Collect(d: map<string, nat>, ps: seq<Param>): map<string, nat>
    decreases |ps|
  {
    if ps == [] then d else Collect(d[ps[0].key := ps[0].value], ps[1..])
  }

  /** `values(**d)`: a call that binds exactly the keywords `channels` and `sample_rate`. */
  function Values(d: map<string, nat>): Result<(nat, nat), Error>
  {
    if d.Keys == {"channels", "sample_rate"} then Success((d["channels"], d["sample_rate"]))
    else Failure(ParamsMismatch(d.Keys))
  }

  /** What `_parse_audio_params(s)` returns, or the error it raises. */
  function AudioParams(s: string): (r: Result<(nat, nat), Error>)
    ensures r.Success? <==> KeysOf(FindAll(s)) == {"channels", "sample_rate"}
    ensures r.Failure? ==> r.error == ParamsMismatch(KeysOf(FindAll(s)))
  {
    CollectKeys(map[], FindAll(s));
    assert Collect(map[], FindAll(s)).Keys == KeysOf(FindAll(s));
    Values(Collect(map[], FindAll(s)))
  }

  /** `_parse_audio_params`: fills a dictionary from the matches, one update per match. */
  method ParseAudioParams(s: string) returns (r: Result<(nat, nat), Error>)
    ensures r == AudioParams(s)
  {
    var d: map<string, nat> := map[];
    var rest := s;
    while rest != []
      invariant Collect(d, FindAll(rest)) == Collect(map[], FindAll(s))
      decreases |rest|
    {
      match MatchAt(rest)
      case Some((p, n)) =>
        CollectMatched(d, rest, p, n, rest[n..]);
        d := d[p.key := p.value];
        rest := rest[n..];
      case None =>
        CollectUnmatched(d, rest, rest[1..]);
        rest := rest[1..];
    }
    r := Values(d);
  }

  /** A match at the scan position is one dictionary update. */
  lemma CollectMatched(d: map<string, nat>, t: string, p: Param, n: nat, rest: string)
    requires MatchAt(t) == Some((p, n)) && n <= |t| && rest == t[n..]
    ensures Collect(d, FindAll(t)) == Collect(d[p.key := p.value], FindAll(rest))
  {
    assert FindAll(t) == [p] + FindAll(rest);
    assert ([p] + FindAll(rest))[1..] == FindAll(rest);
  }

  /** No match at the scan position: the scan moves one character on. */
  lemma CollectUnmatched(d: map<string, nat>, t: string, rest: string)
    requires t != [] && MatchAt(t).None? && rest == t[1..]
    ensures Collect(d, FindAll(t)) == Collect(d, FindAll(rest))
  {
  }

  function KeysOf(ps: seq<Param>): set<string>
  {
    set i | 0 <= i < |ps| :: ps[i].key
  }

  /** The dictionary holds the keys it started with and every key matched. */
  lemma {:induction false} CollectKeys(d: map<string, nat>, ps: seq<Param>)
    ensures Collect(d, ps).Keys == d.Keys + KeysOf(ps)
    decreases |ps|
  {
    if ps != [] {
      CollectKeys(d[ps[0].key := ps[0].value], ps[1..]);
      assert KeysOf(ps) == {ps[0].key} + KeysOf(ps[1..]) by {
        forall x | x in KeysOf(ps) ensures x in {ps[0].key} + KeysOf(ps[1..]) {
          var i :| 0 <= i < |ps| && ps[i].key == x;
          if i > 0 { assert ps[1..][i - 1].key == x; }
        }
      }
    }
  }

  /** When a key occurs more than once, the value of its last occurrence is kept. */
  lemma {:induction false} LastOccurrenceWins(d: map<string, nat>, ps: seq<Param>, j: nat)
    requires j < |ps|
    requires forall l :: j < l < |ps| ==> ps[l].key != ps[j].key
    ensures ps[j].key in Collect(d, ps)
    ensures Collect(d, ps)[ps[j].key] == ps[j].value
    decreases |ps|
  {
    var d' := d[ps[0].key := ps[0].value];
    if j == 0 {
      KeptWhenAbsent(d', ps[1..], ps[0].key);
    } else {
      LastOccurrenceWins(d', ps[1..], j - 1);
    }
  }

  /** A key that no later match mentions keeps its value. */
  lemma {:induction false} KeptWhenAbsent(d: map<string, nat>, ps: seq<Param>, key: string)
    requires key in d
    requires forall l :: 0 <= l < |ps| ==> ps[l].key != key
    ensures key in Collect(d, ps) && Collect(d, ps)[key] == d[key]
    decreases |ps|
  {
    if ps != [] {
      KeptWhenAbsent(d[ps[0].key := ps[0].value], ps[1..], key);
    }
  }

  /** `_parse_audio_params` succeeds exactly when the matched keys are `channels` and
      `sample_rate` and nothing else; it then returns the last value given for each,
      channels first. */
  lemma AudioParamsMeaning(s: string)
    ensures AudioParams(s).Success? <==> KeysOf(FindAll(s)) == {"channels", "sample_rate"}
    ensures AudioParams(s).Failure? ==> AudioParams(s).error == ParamsMismatch(KeysOf(FindAll(s)))
    ensures forall j :: 0 <= j < |FindAll(s)| && AudioParams(s).Success?
                        && (forall l :: j < l < |FindAll(s)| ==> FindAll(s)[l].key != FindAll(s)[j].key) ==>
              (FindAll(s)[j].key == "channels" ==> AudioParams(s).value.0 == FindAll(s)[j].value) &&
              (FindAll(s)[j].key == "sample_rate" ==> AudioParams(s).value.1 == FindAll(s)[j].value)
  {
    var ps := FindAll(s);
    CollectKeys(map[], ps);
    forall j | 0 <= j < |ps| && (forall l :: j < l < |ps| ==> ps[l].key != ps[j].key)
      ensures Collect(map[], ps)[ps[j].key] == ps[j].value
    {
      LastOccurrenceWins(map[], ps, j);
    }
  }

  /** One `key=value` line as the prober prints it. */
  function Line(p: Param): string
  {
    p.key + "=" + NatToString(p.value) + "\n"
  }

  function Lines(ps: seq<Param>): string
  {
    if ps == [] then "" else Line(ps[0]) + Lines(ps[1..])
  }

  /** The prober's report for the two stream entries asked for, in the order it
      prints them (sample rate first). */
  function ProbeReport(channels: nat, sampleRate: nat): string
  {
    "[STREAM]\n" + Lines([Param("sample_rate", sampleRate), Param("channels", channels)]) + "[/STREAM]\n"
  }

  lemma {:induction false} KeyRunOfKey(key: string, t: string)
    requires AllKeyChars(key)
    requires t == [] || !IsKeyChar(t[0])
    ensures KeyRun(key + t) == |key|
  {
    if key != [] {
      assert (key + t)[1..] == key[1..] + t;
      KeyRunOfKey(key[1..], t);
    }
  }

  lemma {:induction false} DigitRunOfDigits(digits: string, t: string)
    requires AllDigits(digits)
    requires t == [] || !IsDigit(t[0])
    ensures DigitRun(digits + t) == |digits|
  {
    if digits != [] {
      assert (digits + t)[1..] == digits[1..] + t;
      DigitRunOfDigits(digits[1..], t);
    }
  }

  lemma FindAllUnmatched(s: string)
    requires s != [] && MatchAt(s).None?
    ensures FindAll(s) == FindAll(s[1..])
  {
  }

  lemma FindAllMatched(s: string)
    requires MatchAt(s).Some?
    ensures FindAll(s) == [MatchAt(s).value.0] + FindAll(s[MatchAt(s).value.1..])
  {
  }

  /** No match starts at a character of `a` when `a` has no `=` and does not end inside a key. */
  lemma NoMatchInText(a: string, b: string)
    requires a != []
    requires forall i :: 0 <= i < |a| ==> a[i] != '='
    requires !IsKeyChar(a[|a| - 1])
    ensures MatchAt(a + b).None?
  {
    var s := a + b;
    KeyRunStops(s, |a| - 1);
    var k := KeyRun(s);
    assert k < |a| ==> s[k] == a[k];
  }

  lemma {:induction false} KeyRunStops(s: string, j: nat)
    requires j < |s| && !IsKeyChar(s[j])
    ensures KeyRun(s) <= j
  {
    if j > 0 && IsKeyChar(s[0]) {
      KeyRunStops(s[1..], j - 1);
    }
  }

  /** Text without `=` that does not end inside a key contributes no match. */
  lemma {:induction false} FindAllSkipsText(a: string, b: string)
    requires forall i :: 0 <= i < |a| ==> a[i] != '='
    requires a == [] || !IsKeyChar(a[|a| - 1])
    ensures FindAll(a + b) == FindAll(b)
    decreases |a|
  {
    if a == [] {
      assert a + b == b;
    } else {
      var s := a + b;
      var a' := a[1..];
      NoMatchInText(a, b);
      FindAllUnmatched(s);
      assert s[1..] == a' + b;
      assert a' == [] || a'[|a'| - 1] == a[|a| - 1];
      FindAllSkipsText(a', b);
    }
  }

  lemma MatchAtFound(s: string, k: nat, digits: string)
    requires 0 < k && k + 1 < |s| && KeyRun(s) == k && s[k] == '=' && IsDigit(s[k + 1])
    requires digits == s[k + 1..][..DigitRun(s[k + 1..])]
    ensures AllDigits(digits)
    ensures MatchAt(s) == Some((Param(s[..k], DigitsValue(digits)), k + 1 + |digits|))
  {
    var r := MatchAt(s);
    assert r.Some?;
    assert r.value.0 == Param(s[..k], DigitsValue(digits));
  }

  /** Text that does not start with a digit leaves a digit run where it was. */
  lemma {:induction false} DigitRunAppend(x: string, t: string)
    requires t == [] || !IsDigit(t[0])
    ensures DigitRun(x + t) == DigitRun(x)
    decreases |x|
  {
    if x == [] {
      assert x + t == t;
    } else if IsDigit(x[0]) {
      assert (x + t)[1..] == x[1..] + t;
      DigitRunAppend(x[1..], t);
    } else {
      assert (x + t)[0] == x[0];
    }
  }

  /** Behind a non-key character, text that does not start with a digit does not
      change the match at the front, and that match stays inside `a`. */
  lemma MatchAtPrefix(a: string, t: string)
    requires a != [] && !IsKeyChar(a[|a| - 1])
    requires t == [] || !IsDigit(t[0])
    ensures MatchAt(a + t) == MatchAt(a)
    ensures MatchAt(a).Some? ==> MatchAt(a).value.1 <= |a|
  {
    KeyRunStops(a, |a| - 1);
    var k := KeyRun(a);
    SameKeyRun(a, t, k);
    if 0 < k && k + 1 < |a| && a[k] == '=' && IsDigit(a[k + 1]) {
      PrefixMatched(a, t, k);
    } else {
      PrefixUnmatched(a, t, k);
    }
  }

  lemma SameKeyRun(a: string, t: string, k: nat)
    requires k == KeyRun(a) && k < |a|
    ensures KeyRun(a + t) == k
  {
    assert (a + t)[..k] == a[..k];
    KeyRunAt(a + t, k);
  }

  lemma PrefixMatched(a: string, t: string, k: nat)
    requires KeyRun(a) == k && KeyRun(a + t) == k
    requires 0 < k && k + 1 < |a| && a[k] == '=' && IsDigit(a[k + 1])
    requires t == [] || !IsDigit(t[0])
    ensures MatchAt(a + t) == MatchAt(a) && MatchAt(a).Some? && MatchAt(a).value.1 <= |a|
  {
    var s := a + t;
    var digits := a[k + 1..][..DigitRun(a[k + 1..])];
    SameDigits(a, t, k);
    MatchAtFound(a, k, digits);
    MatchAtFound(s, k, digits);
    assert s[..k] == a[..k];
  }

  /** The digit run after the key is the same in `a` and in `a + t`. */
  lemma SameDigits(a: string, t: string, k: nat)
    requires k + 1 < |a| && (t == [] || !IsDigit(t[0]))
    ensures (a + t)[k + 1..][..DigitRun((a + t)[k + 1..])] == a[k + 1..][..DigitRun(a[k + 1..])]
  {
    var x := a[k + 1..];
    assert (a + t)[k + 1..] == x + t;
    DigitRunAppend(x, t);
    var d := DigitRun(x);
    assert (x + t)[..d] == x[..d];
  }

  lemma PrefixUnmatched(a: string, t: string, k: nat)
    requires KeyRun(a) == k && KeyRun(a + t) == k && k < |a|
    requires !(0 < k && k + 1 < |a| && a[k] == '=' && IsDigit(a[k + 1]))
    requires t == [] || !IsDigit(t[0])
    ensures MatchAt(a + t).None? && MatchAt(a).None?
  {
    var s := a + t;
    assert s[k] == a[k];
    assert k + 1 < |a| ==> s[k + 1] == a[k + 1];
    assert !(0 < k && k + 1 < |s| && s[k] == '=' && IsDigit(s[k + 1]));
  }

  /** The scan's first step is the same on `a` and on `a + t`: it yields `head`
      (one match or none) and resumes at `n`, inside `a`. */
  lemma ScanHead(a: string, t: string) returns (n: nat, head: seq<Param>)
    requires a != [] && !IsKeyChar(a[|a| - 1])
    requires t == [] || !IsDigit(t[0])
    ensures 1 <= n <= |a|
    ensures FindAll(a) == head + FindAll(a[n..])
    ensures FindAll(a + t) == head + FindAll((a + t)[n..])
  {
    MatchAtPrefix(a, t);
    var r := MatchAt(a);
    if r.Some? {
      n, head := r.value.1, [r.value.0];
      ScanBothMatched(a, a + t, r.value.0, n);
    } else {
      n, head := 1, [];
      ScanBothSkipped(a, a + t);
    }
  }

  lemma ScanBothMatched(s: string, s': string, p: Param, n: nat)
    requires MatchAt(s) == Some((p, n)) && MatchAt(s') == Some((p, n))
    ensures FindAll(s) == [p] + FindAll(s[n..]) && FindAll(s') == [p] + FindAll(s'[n..])
  {
    FindAllMatched(s);
    FindAllMatched(s');
  }

  lemma ScanBothSkipped(s: string, s': string)
    requires s != [] && s' != [] && MatchAt(s).None? && MatchAt(s').None?
    ensures FindAll(s) == FindAll(s[1..]) && FindAll(s') == FindAll(s'[1..])
  {
    FindAllUnmatched(s);
    FindAllUnmatched(s');
  }

  lemma RestAfterScan(a: string, t: string, n: nat)
    requires 1 <= n <= |a| && !IsKeyChar(a[|a| - 1])
    ensures (a + t)[n..] == a[n..] + t
    ensures a[n..] == [] || !IsKeyChar(a[n..][|a[n..]| - 1])
  {
  }

  lemma PrependSplit<T>(whole: seq<T>, left: seq<T>, right: seq<T>, head: seq<T>, restWhole: seq<T>, restLeft: seq<T>)
    requires whole == head + restWhole && left == head + restLeft && restWhole == restLeft + right
    ensures whole == left + right
  {
    AppendAssoc(head, restLeft, right);
  }

  /** No match straddles a point that follows a non-key character and precedes a
      non-digit: the scan of the whole is the scans of the two parts. */
  lemma {:induction false} FindAllSplit(a: string, t: string)
    requires a == [] || !IsKeyChar(a[|a| - 1])
    requires t == [] || !IsDigit(t[0])
    ensures FindAll(a + t) == FindAll(a) + FindAll(t)
    decreases |a|
  {
    if a == [] {
      assert a + t == t;
    } else {
      var n, head := ScanHead(a, t);
      RestAfterScan(a, t, n);
      FindAllSplit(a[n..], t);
      PrependSplit(FindAll(a + t), FindAll(a), FindAll(t), head, FindAll(a[n..] + t), FindAll(a[n..]));
    }
  }

  /** A `key=digits` that stands after a non-key character and before a non-digit
      is found with its whole key and value, in its place among the other matches. */
  lemma FindAllFinds(a: string, key: string, digits: string, b: string)
    requires a == [] || !IsKeyChar(a[|a| - 1])
    requires WellFormedKey(key) && digits != [] && AllDigits(digits)
    requires b == [] || !IsDigit(b[0])
    ensures FindAll(a + key + "=" + digits + b)
         == FindAll(a) + [Param(key, DigitsValue(digits))] + FindAll(b)
  {
    var m := key + "=" + digits + b;
    assert a + key + "=" + digits + b == a + m;
    FindAllSplit(a, m);
    var p := Param(key, DigitsValue(digits));
    FindAllMatchesKey(key, digits, b);
    AppendAssoc(FindAll(a), [p], FindAll(b));
  }

  /** `key=digits` at the front, followed by a non-digit, is the first match. */
  lemma FindAllMatchesKey(key: string, digits: string, b: string)
    requires WellFormedKey(key) && digits != [] && AllDigits(digits)
    requires b == [] || !IsDigit(b[0])
    ensures FindAll(key + "=" + digits + b) == [Param(key, DigitsValue(digits))] + FindAll(b)
  {
    var m := key + "=" + digits + b;
    PrintedPieces(key, digits, b);
    MatchAtFound(m, |key|, digits);
    FindAllMatched(m);
    assert m[|key| + 1 + |digits|..] == b;
  }

  /** The pieces of a printed `key=digits` followed by a non-digit, as the matcher
      sees them. */
  lemma PrintedPieces(key: string, digits: string, tail: string)
    requires WellFormedKey(key) && digits != [] && AllDigits(digits)
    requires tail == [] || !IsDigit(tail[0])
    ensures var s, k := key + "=" + digits + tail, |key|;
      && 0 < k && k + 1 < |s| && KeyRun(s) == k && s[k] == '=' && IsDigit(s[k + 1])
      && s[k + 1..][..DigitRun(s[k + 1..])] == digits && s[..k] == key
  {
    var after := "=" + digits + tail;
    var s := key + after;
    assert key + "=" + digits + tail == s;
    var k := |key|;
    assert after[0] == '=';
    KeyRunOfKey(key, after);
    var rest := digits + tail;
    assert s[k + 1..] == rest;
    DigitRunOfDigits(digits, tail);
    assert rest[..|digits|] == digits;
    assert s[k] == '=' && s[k + 1] == digits[0];
    assert s[..k] == key;
  }

  /** A printed `key=value` followed by a newline is one match covering the pair. */
  lemma MatchAtPrinted(p: Param, tail: string)
    requires WellFormedKey(p.key)
    requires tail != [] && tail[0] == '\n'
    ensures MatchAt(p.key + "=" + NatToString(p.value) + tail)
         == Some((p, |p.key| + 1 + |NatToString(p.value)|))
  {
    var digits := NatToString(p.value);
    PrintedPieces(p.key, digits, tail);
    MatchAtFound(p.key + "=" + digits + tail, |p.key|, digits);
  }

  /** One printed line is one match; the scan goes on after its newline. */
  lemma FindAllLine(p: Param, more: string)
    requires WellFormedKey(p.key)
    ensures FindAll(Line(p) + more) == [p] + FindAll(more)
  {
    FindAllLineHead(p, "\n" + more);
    assert Line(p) + more == p.key + "=" + NatToString(p.value) + ("\n" + more);
    FindAllSkipsText("\n", more);
  }

  lemma FindAllLineHead(p: Param, tail: string)
    requires WellFormedKey(p.key)
    requires tail != [] && tail[0] == '\n'
    ensures FindAll(p.key + "=" + NatToString(p.value) + tail) == [p] + FindAll(tail)
  {
    var s := p.key + "=" + NatToString(p.value) + tail;
    var n := |p.key| + 1 + |NatToString(p.value)|;
    MatchAtPrinted(p, tail);
    FindAllMatched(s);
    assert s[n..] == tail;
  }

  /** Printed `key=value` lines are matched back exactly, in order. */
  lemma {:induction false} FindAllLines(ps: seq<Param>, rest: string)
    requires forall i :: 0 <= i < |ps| ==> WellFormedKey(ps[i].key)
    ensures FindAll(Lines(ps) + rest) == ps + FindAll(rest)
    decreases |ps|
  {
    if ps == [] {
      assert Lines(ps) + rest == rest;
    } else {
      var tail := Lines(ps[1..]) + rest;
      AppendAssoc(Line(ps[0]), Lines(ps[1..]), rest);
      FindAllLine(ps[0], tail);
      FindAllLines(ps[1..], rest);
      AppendAssoc([ps[0]], ps[1..], FindAll(rest));
      assert [ps[0]] + ps[1..] == ps;
    }
  }

  lemma ReportFrameSkipped(frame: string, b: string)
    requires frame == "[STREAM]\n" || frame == "[/STREAM]\n"
    ensures FindAll(frame + b) == FindAll(b)
  {
    FindAllSkipsText(frame, b);
  }

  lemma ReportKeysWellFormed()
    ensures WellFormedKey("sample_rate") && WellFormedKey("channels")
  {
  }

  lemma ProbeReportParts(channels: nat, sampleRate: nat)
    ensures ProbeReport(channels, sampleRate)
         == "[STREAM]\n" + (Lines([Param("sample_rate", sampleRate), Param("channels", channels)]) + "[/STREAM]\n")
  {
  }

  /** A section of printed lines between the prober's frame lines yields exactly
      those lines' entries. */
  lemma FramedLinesMatch(ps: seq<Param>)
    requires forall i :: 0 <= i < |ps| ==> WellFormedKey(ps[i].key)
    ensures FindAll("[STREAM]\n" + (Lines(ps) + "[/STREAM]\n")) == ps
  {
    LinesBeforeFootMatch(ps);
    ReportFrameSkipped("[STREAM]\n", Lines(ps) + "[/STREAM]\n");
  }

  lemma LinesBeforeFootMatch(ps: seq<Param>)
    requires forall i :: 0 <= i < |ps| ==> WellFormedKey(ps[i].key)
    ensures FindAll(Lines(ps) + "[/STREAM]\n") == ps
  {
    FindAllLines(ps, "[/STREAM]\n");
    FootMatchesNothing();
    assert ps + [] == ps;
  }

  lemma FootMatchesNothing()
    ensures FindAll("[/STREAM]\n") == []
  {
    ReportFrameSkipped("[/STREAM]\n", []);
    assert "[/STREAM]\n" + [] == "[/STREAM]\n";
  }

  /** The prober's report yields its two entries and nothing else. */
  lemma ProbeReportMatches(channels: nat, sampleRate: nat)
    ensures FindAll(ProbeReport(channels, sampleRate))
         == [Param("sample_rate", sampleRate), Param("channels", channels)]
  {
    ReportKeysWellFormed();
    FramedLinesMatch([Param("sample_rate", sampleRate), Param("channels", channels)]);
    ProbeReportParts(channels, sampleRate);
  }

  /** The prober's report parses back to the channel count and sample rate it
      states, channels first. */
  lemma ProbeReportRoundTrip(channels: nat, sampleRate: nat)
    ensures AudioParams(ProbeReport(channels, sampleRate)) == Success((channels, sampleRate))
  {
    ProbeReportMatches(channels, sampleRate);
    var ps := [Param("sample_rate", sampleRate), Param("channels", channels)];
    assert ps[1..] == [Param("channels", channels)] && ps[1..][1..] == [];
    var d1 := map["sample_rate" := sampleRate];
    var d := Collect(map[], ps);
    assert d == Collect(d1, ps[1..]);
    assert Collect(d1, ps[1..]) == Collect(d1["channels" := channels], []);
    assert d == map["sample_rate" := sampleRate, "channels" := channels];
    assert d.Keys == {"channels", "sample_rate"};
  }

  // ---------------------------------------------------------------------------
  // read_audio_info, read_audio_data

  predicate ValidFormat(info: AudioSourceInfo) {
    info.channelCount >= 1 && info.sampleRate >= 8000
  }

  /** The check in `read_audio_info`: a probed format with no channel or a sample
      rate below 8000 Hz ends the run; otherwise the record carries the probed values. */
  function CheckFormat(path: string, channelCount: int, sampleRate: int,
                       performers: set<string>, album: string, tracks: seq<TrackInfo>)
    : (r: Result<AudioSourceInfo, Error>)
    ensures r.Success? <==> channelCount >= 1 && sampleRate >= 8000
    ensures r.Success? ==> ValidFormat(r.value)
    ensures r.Success? ==> r.value == AudioSourceInfo(path, channelCount, sampleRate, performers, album, tracks)
    ensures r.Failure? ==> r.error == InvalidFormat(channelCount, sampleRate)
  {
    if channelCount < 1 || sampleRate < 8000 then Failure(InvalidFormat(channelCount, sampleRate))
    else Success(AudioSourceInfo(path, channelCount, sampleRate, performers, album, tracks))
  }

  /** `read_audio_info`: parse the prober's report, then check the format. */
  method ReadAudioInfo(inPath: string, probeOutput: string,
                       performers: set<string>, album: string, tracks: seq<TrackInfo>)
    returns (r: Result<AudioSourceInfo, Error>)
    ensures r.Success? <==> AudioParams(probeOutput).Success?
                            && AudioParams(probeOutput).value.0 >= 1
                            && AudioParams(probeOutput).value.1 >= 8000
    ensures r.Success? ==> ValidFormat(r.value) && r.value.path == inPath
                           && (r.value.channelCount, r.value.sampleRate) == AudioParams(probeOutput).value
                           && r.value.performers == performers && r.value.album == album
                           && r.value.tracks == tracks
    ensures r.Failure? && AudioParams(probeOutput).Failure? ==> r.error == AudioParams(probeOutput).error
    ensures r.Failure? && AudioParams(probeOutput).Success? ==>
              r.error == InvalidFormat(AudioParams(probeOutput).value.0, AudioParams(probeOutput).value.1)
  {
    var params := ParseAudioParams(probeOutput);
    match params
    case Failure(e) =>
      r := Failure(e);
    case Success((channelCount, sampleRate)) =>
      r := CheckFormat(inPath, channelCount, sampleRate, performers, album, tracks);
  }

  // ---------------------------------------------------------------------------
  // _read_audio_blocks

  function Min(a: nat, b: nat): nat {
    if a < b then a else b
  }

  /** The decoder's standard output: everything it writes, and how much has been read. */
  class Pipe {
    const data: seq<Byte>
    var pos: nat

    ghost predicate Valid()
      reads this
    {
      pos <= |data|
    }

    constructor (data: seq<Byte>)
      ensures Valid() && this.data == data && pos == 0
    {
      this.data := data;
      pos := 0;
    }

    /** `readinto` on the buffered pipe: fills the buffer, or as much of it as the
        stream still holds (zero bytes once it is exhausted). */
    method ReadInto(buffer: array<Byte>) returns (n: nat)
      requires Valid()
      modifies this, buffer
      ensures Valid()
      ensures n == Min(|data| - old(pos), buffer.Length) && pos == old(pos) + n
      ensures buffer[..n] == data[old(pos)..pos]
      ensures buffer[n..] == old(buffer[n..])
    {
      n := Min(|data| - pos, buffer.Length);
      var i := 0;
      while i < n
        modifies buffer
        invariant 0 <= i <= n
        invariant forall k :: 0 <= k < i ==> buffer[k] == data[pos + k]
        invariant forall k :: i <= k < buffer.Length ==> buffer[k] == old(buffer[k])
      {
        buffer[i] := data[pos + i];
        i := i + 1;
      }
      pos := pos + n;
    }
  }

  /** `frombuffer(..., count=|bytes| // 4)`: the bytes read as 4-byte samples; a
      trailing partial sample is dropped. */
  function Samples(bytes: seq<Byte>): (s: seq<Sample>)
    ensures |s| == |bytes| / 4
  {
    seq(|bytes| / 4, k requires 0 <= k < |bytes| / 4 =>
      Sample(bytes[4 * k], bytes[4 * k + 1], bytes[4 * k + 2], bytes[4 * k + 3]))
  }

  lemma FrameIndexInRange(j: nat, ch: nat, c: nat, f: nat)
    requires j < f && ch < c
    ensures j * c + ch < f * c
  {
    assert j * c <= (f - 1) * c by {
      MulMonotone(j, f - 1, c);
    }
  }

  /** `reshape(a, (c, -1), order='F')`: sample `k` goes to channel `k % c`,
      frame `k / c`. */
  function Deinterleave(s: seq<Sample>, c: nat): (blk: Block)
    requires c >= 1 && |s| % c == 0
    ensures |blk| == c
    ensures forall ch :: 0 <= ch < c ==> |blk[ch]| == |s| / c
  {
    var f := |s| / c;
    seq(c, ch requires 0 <= ch < c =>
      seq(f, j requires 0 <= j < f => (FrameIndexInRange(j, ch, c, f); s[j * c + ch])))
  }

  predicate IsRect(blk: Block) {
    blk != [] && forall ch :: 0 <= ch < |blk| ==> |blk[ch]| == |blk[0]|
  }

  function Frames(blk: Block): nat {
    if blk == [] then 0 else |blk[0]|
  }

  lemma SampleIndexInRange(k: nat, c: nat, f: nat)
    requires c >= 1 && k < c * f
    ensures k % c < c && k / c < f
  {
    assert (k / c) * c <= k;
    MulCancelLess(k / c, f, c);
  }


  /** The inverse of `Deinterleave`: the block read back column by column. */
  function Interleave(blk: Block): (s: seq<Sample>)
    requires IsRect(blk)
    ensures |s| == |blk| * Frames(blk)
  {
    var c, f := |blk|, Frames(blk);
    seq(c * f, k requires 0 <= k < c * f => (SampleIndexInRange(k, c, f); blk[k % c][k / c]))
  }

  /** De-interleaving then interleaving gives back the samples read. */
  lemma {:induction false} InterleaveDeinterleave(s: seq<Sample>, c: nat)
    requires c >= 1 && |s| % c == 0
    ensures IsRect(Deinterleave(s, c)) && Interleave(Deinterleave(s, c)) == s
  {
    var blk := Deinterleave(s, c);
    var f := |s| / c;
    assert Frames(blk) == f;
    assert c * f == |s|;
    forall k | 0 <= k < |s| ensures Interleave(blk)[k] == s[k] {
      SampleIndexInRange(k, c, f);
      assert (k / c) * c + k % c == k;
    }
  }

  /** What `_read_audio_blocks` yields from the decoder's bytes: each read fills a
      buffer of `4 * c * b` bytes (the last read may be short), its whole samples
      are de-interleaved into a `(c, frames)` block, and a read whose sample count
      is not a multiple of `c` makes the reshape raise.  A zero-byte read ends it. */
  function BlocksOf(bytes: seq<Byte>, c: nat, b: nat): (r: BlockStream)
    ensures r.failure.Some? ==>
      && r.failure.value.ReshapeFailed? && c >= 1
      && r.failure.value.channelCount == c && r.failure.value.sampleCount % c != 0
    decreases |bytes|
  {
    var n := Min(|bytes|, 4 * c * b);
    if n == 0 then BlockStream([], None)
    else if (n / 4) % c != 0 then BlockStream([], Some(ReshapeFailed(n / 4, c)))
    else
      var rest := BlocksOf(bytes[n..], c, b);
      BlockStream([Deinterleave(Samples(bytes[..n]), c)] + rest.blocks, rest.failure)
  }

  /** A read that the reshape accepts yields one block and the reader goes on. */
  lemma BlocksOfRead(bytes: seq<Byte>, c: nat, b: nat)
    requires Min(|bytes|, 4 * c * b) > 0
    ensures var n := Min(|bytes|, 4 * c * b);
      c >= 1 &&
      ((n / 4) % c != 0 ==> BlocksOf(bytes, c, b) == BlockStream([], Some(ReshapeFailed(n / 4, c)))) &&
      ((n / 4) % c == 0 ==>
        && |Samples(bytes[..n])| % c == 0
        && BlocksOf(bytes, c, b).blocks
           == [Deinterleave(Samples(bytes[..n]), c)] + BlocksOf(bytes[n..], c, b).blocks
        && BlocksOf(bytes, c, b).failure == BlocksOf(bytes[n..], c, b).failure)
  {
  }

  /** The stream that follows the blocks already yielded. */
  function After(yielded: seq<Block>, st: BlockStream): BlockStream
  {
    BlockStream(yielded + st.blocks, st.failure)
  }

  /** A zero-byte read ends the stream after the blocks already yielded. */
  lemma ReaderEnd(yielded: seq<Block>, unread: seq<Byte>, c: nat, b: nat)
    requires Min(|unread|, 4 * c * b) == 0
    ensures After(yielded, BlocksOf(unread, c, b)) == BlockStream(yielded, None)
  {
    assert yielded + [] == yielded;
  }

  /** A non-empty read happens only with at least one channel. */
  lemma ReadHasChannels(n: nat, c: nat, b: nat)
    requires 0 < n <= 4 * c * b
    ensures c >= 1
  {
  }

  /** A read whose sample count is not a multiple of `c` ends the stream with
      the reshape error. */
  lemma ReaderRagged(yielded: seq<Block>, unread: seq<Byte>, c: nat, b: nat)
    requires c >= 1
    requires var n := Min(|unread|, 4 * c * b); n > 0 && (n / 4) % c != 0
    ensures var n := Min(|unread|, 4 * c * b);
      After(yielded, BlocksOf(unread, c, b)) == BlockStream(yielded, Some(ReshapeFailed(n / 4, c)))
  {
    BlocksOfRead(unread, c, b);
    assert yielded + [] == yielded;
  }

  /** Any other read appends the block of the bytes read, and the reader goes on
      with the rest. */
  lemma ReaderRead(yielded: seq<Block>, unread: seq<Byte>, c: nat, b: nat, n: nat, read: seq<Byte>)
    requires c >= 1 && n == Min(|unread|, 4 * c * b) && n > 0 && (n / 4) % c == 0
    requires read == unread[..n]
    ensures |Samples(read)| % c == 0
    ensures After(yielded, BlocksOf(unread, c, b))
         == After(yielded + [Deinterleave(Samples(read), c)], BlocksOf(unread[n..], c, b))
  {
    BlocksOfRead(unread, c, b);
    AppendAssoc(yielded, [Deinterleave(Samples(read), c)], BlocksOf(unread[n..], c, b).blocks);
  }

  /** `bytes_per_block`: `b` frames of `c` four-byte samples. */
  function BlockBytes(c: nat, b: nat): nat
  {
    4 * c * b
  }

  /** The bytes a read delivers are the front of what was unread, and what it
      leaves is the rest. */
  lemma SliceOfRead(data: seq<Byte>, start: nat, n: nat, read: seq<Byte>)
    requires start + n <= |data| && read == data[start..start + n]
    ensures data[start..][..n] == read && data[start..][n..] == data[start + n..]
  {
  }

  /** `_read_audio_blocks`: one buffer of `4 * channelCount * blockSamples` bytes,
      refilled by `readinto` until a read returns nothing. */
  method ReadAudioBlocks(pipe: Pipe, channelCount: nat, blockSamples: nat) returns (stream: BlockStream)
    requires pipe.Valid()
    modifies pipe
    ensures pipe.Valid()
    ensures stream == BlocksOf(pipe.data[old(pipe.pos)..], channelCount, blockSamples)
  {
    var bytesPerBlock: nat := BlockBytes(channelCount, blockSamples);
    var buffer := new Byte[bytesPerBlock];
    var blocks: seq<Block> := [];
    ghost var whole := BlocksOf(pipe.data[pipe.pos..], channelCount, blockSamples);
    assert whole == After([], whole);
    while true
      invariant pipe.Valid() && buffer.Length == bytesPerBlock
      invariant whole == After(blocks, BlocksOf(pipe.data[pipe.pos..], channelCount, blockSamples))
      decreases |pipe.data| - pipe.pos
    {
      ghost var start := pipe.pos;
      var readSize := pipe.ReadInto(buffer);
      SliceOfRead(pipe.data, start, readSize, buffer[..readSize]);
      if readSize == 0 {
        ReaderEnd(blocks, pipe.data[start..], channelCount, blockSamples);
        break;
      }
      ReadHasChannels(readSize, channelCount, blockSamples);
      var count := readSize / 4;
      if count % channelCount != 0 {
        ReaderRagged(blocks, pipe.data[start..], channelCount, blockSamples);
        stream := BlockStream(blocks, Some(ReshapeFailed(count, channelCount)));
        return;
      }
      ReaderRead(blocks, pipe.data[start..], channelCount, blockSamples, readSize, buffer[..readSize]);
      var block := Deinterleave(Samples(buffer[..readSize]), channelCount);
      blocks := blocks + [block];
    }
    stream := BlockStream(blocks, None);
  }

  /** `read_audio_data`: the source record, the block size, and the block stream of
      its decoded bytes.  A negative buffer size makes the generator's
      `bytearray(...)` raise on its first step; an empty buffer reads nothing. */
  method ReadAudioData(what: AudioSourceInfo, samplesPerBlock: nat, pipe: Pipe) returns (source: AudioSource)
    requires pipe.Valid()
    modifies pipe
    ensures pipe.Valid()
    ensures source.sourceInfo == what && source.samplesPerBlock == samplesPerBlock
    ensures what.channelCount >= 0 ==>
      source.blocks == BlocksOf(pipe.data[old(pipe.pos)..], what.channelCount, samplesPerBlock)
    ensures what.channelCount < 0 ==> pipe.pos == old(pipe.pos)
    ensures what.channelCount < 0 && samplesPerBlock > 0 ==>
      source.blocks == BlockStream([], Some(NegativeBufferSize(4 * what.channelCount * samplesPerBlock)))
    ensures what.channelCount < 0 && samplesPerBlock == 0 ==> source.blocks == BlockStream([], None)
  {
    var blocks;
    if what.channelCount >= 0 {
      blocks := ReadAudioBlocks(pipe, what.channelCount, samplesPerBlock);
    } else if samplesPerBlock > 0 {
      blocks := BlockStream([], Some(NegativeBufferSize(4 * what.channelCount * samplesPerBlock)));
    } else {
      blocks := BlockStream([], None);
    }
    source := AudioSource(what, samplesPerBlock, blocks);
  }

  lemma FullRead(c: nat, b: nat)
    requires c >= 1
    ensures (4 * c * b) / 4 == c * b && (c * b) % c == 0 && (c * b) / c == b
  {
    assert 4 * c * b == (c * b) * 4;
    DivModUnique(4 * c * b, 4, c * b, 0);
    assert c * b == b * c;
    DivModUnique(c * b, c, b, 0);
  }

  lemma ShortRead(n: nat, c: nat, b: nat)
    requires c >= 1 && n <= 4 * c * b
    ensures (n / 4) / c <= b
  {
    FullRead(c, b);
    assert n / 4 <= c * b;
    if (n / 4) / c > b {
      MulMonotone(b + 1, (n / 4) / c, c);
    }
  }

  /** Every block has one row per channel and at most `b` frames; every block but
      the last is a full read of exactly `b` frames. */
  lemma {:induction false} BlocksShape(bytes: seq<Byte>, c: nat, b: nat)
    ensures var bs := BlocksOf(bytes, c, b).blocks;
      forall i :: 0 <= i < |bs| ==>
        |bs[i]| == c && IsRect(bs[i]) && Frames(bs[i]) <= b && (i < |bs| - 1 ==> Frames(bs[i]) == b)
    decreases |bytes|
  {
    var n := Min(|bytes|, 4 * c * b);
    if n != 0 && (n / 4) % c == 0 {
      BlocksOfRead(bytes, c, b);
      var blk := Deinterleave(Samples(bytes[..n]), c);
      var rest := BlocksOf(bytes[n..], c, b).blocks;
      var bs := BlocksOf(bytes, c, b).blocks;
      assert bs == [blk] + rest;
      BlocksShape(bytes[n..], c, b);
      assert Frames(blk) == (n / 4) / c;
      ShortRead(n, c, b);
      if rest != [] {
        assert n == 4 * c * b;
        FullRead(c, b);
      }
      forall i | 0 <= i < |bs|
        ensures |bs[i]| == c && IsRect(bs[i]) && Frames(bs[i]) <= b && (i < |bs| - 1 ==> Frames(bs[i]) == b)
      {
        if i > 0 {
          assert bs[i] == rest[i - 1];
        }
      }
    }
  }

  lemma ModSubMultiple(x: nat, c: nat, b: nat)
    requires c >= 1 && x >= c * b
    ensures (x - c * b) % c == x % c
  {
    var q, r := x / c, x % c;
    assert x - c * b == (q - b) * c + r;
    DivModUnique(x - c * b, c, q - b, r);
  }

  /** With a non-empty block size the reader stops on a reshape error exactly when
      the stream's whole-sample count is not a multiple of the channel count. */
  lemma {:induction false} BlocksFailWhenRagged(bytes: seq<Byte>, c: nat, b: nat)
    requires c >= 1 && b >= 1
    ensures BlocksOf(bytes, c, b).failure.Some? <==> (|bytes| / 4) % c != 0
    decreases |bytes|
  {
    var n := Min(|bytes|, 4 * c * b);
    if |bytes| > 4 * c * b {
      LongReadKeepsRaggedness(|bytes|, c, b);
      BlocksOfRead(bytes, c, b);
      BlocksFailWhenRagged(bytes[n..], c, b);
    } else if n > 0 {
      BlocksOfRead(bytes, c, b);
      assert bytes[n..] == [];
    } else {
      DivModUnique(0, c, 0, 0);
    }
  }

  /** A full read holds whole frames and leaves behind as many stray samples
      (modulo the channel count) as the stream had. */
  lemma LongReadKeepsRaggedness(len: nat, c: nat, b: nat)
    requires c >= 1 && len > 4 * c * b
    ensures (4 * c * b / 4) % c == 0
    ensures ((len - 4 * c * b) / 4) % c == (len / 4) % c
  {
    FullRead(c, b);
    assert 4 * c * b == 4 * (c * b);
    DivModUnique(len - 4 * c * b, 4, len / 4 - c * b, len % 4);
    ModSubMultiple(len / 4, c, b);
  }

  function Reinterleaved(blocks: seq<Block>): seq<Sample>
    requires forall i :: 0 <= i < |blocks| ==> IsRect(blocks[i])
  {
    if blocks == [] then [] else Interleave(blocks[0]) + Reinterleaved(blocks[1..])
  }

  lemma SamplesSplit(bytes: seq<Byte>, n: nat)
    requires n <= |bytes| && n % 4 == 0
    ensures Samples(bytes) == Samples(bytes[..n]) + Samples(bytes[n..])
  {
    var whole, left, right := Samples(bytes), Samples(bytes[..n]), Samples(bytes[n..]);
    assert |whole| == |left| + |right|;
    forall k | 0 <= k < |whole| ensures whole[k] == (left + right)[k] {
      if k >= |left| {
        assert 4 * k == n + 4 * (k - |left|);
      }
    }
  }

  /** On a stream of whole frames, every read holds whole frames and leaves whole
      frames behind. */
  lemma WholeFrameRead(len: nat, c: nat, b: nat)
    requires c >= 1 && b >= 1 && len % (4 * c) == 0 && len > 0
    ensures var n := Min(len, 4 * c * b);
      n % 4 == 0 && (n / 4) % c == 0 && n / 4 >= c && (len - n) % (4 * c) == 0
  {
    var w := 4 * c;
    var q := len / w;
    assert len == q * w;
    var n := Min(len, w * b);
    if n < len {
      WholeFrames(n, c, b);
      WholeFramesLeft(len, n, w, q, b);
    } else {
      WholeFrames(n, c, q);
      DivModUnique(len - n, w, 0, 0);
    }
  }

  /** `m >= 1` whole reads of `c` channels: a whole number of samples and frames. */
  lemma WholeFrames(n: nat, c: nat, m: nat)
    requires c >= 1 && m >= 1 && n == m * (4 * c)
    ensures n % 4 == 0 && (n / 4) % c == 0 && n / 4 >= c
  {
    assert m * (4 * c) == (c * m) * 4;
    DivModUnique(n, 4, c * m, 0);
    assert c * m == m * c;
    DivModUnique(c * m, c, m, 0);
    MulMonotone(1, m, c);
  }

  lemma WholeFramesLeft(len: nat, n: nat, w: nat, q: nat, b: nat)
    requires w >= 1 && len == q * w && n == w * b && n < len
    ensures (len - n) % w == 0
  {
    assert b * w < q * w;
    MulCancelLess(b, q, w);
    assert len - n == (q - b) * w;
    DivModUnique(len - n, w, q - b, 0);
  }

  /** A stream of whole frames comes back whole: the blocks, re-interleaved and
      concatenated, are the decoded samples in order, with no error. */
  lemma {:induction false} BlocksReinterleave(bytes: seq<Byte>, c: nat, b: nat)
    requires c >= 1 && b >= 1 && |bytes| % (4 * c) == 0
    ensures BlocksOf(bytes, c, b).failure.None?
    ensures forall i :: 0 <= i < |BlocksOf(bytes, c, b).blocks| ==> IsRect(BlocksOf(bytes, c, b).blocks[i])
    ensures Reinterleaved(BlocksOf(bytes, c, b).blocks) == Samples(bytes)
    decreases |bytes|
  {
    BlocksShape(bytes, c, b);
    if bytes != [] {
      var n := Min(|bytes|, 4 * c * b);
      WholeFrameRead(|bytes|, c, b);
      BlocksOfRead(bytes, c, b);
      var samples := Samples(bytes[..n]);
      InterleaveDeinterleave(samples, c);
      BlocksReinterleave(bytes[n..], c, b);
      SamplesSplit(bytes, n);
      var blocks := BlocksOf(bytes, c, b).blocks;
      assert blocks[1..] == BlocksOf(bytes[n..], c, b).blocks;
    }
  }

  /** A read the reshape accepts from a stream of whole samples holds at least
      one frame. */
  lemma ReadHasFrames(len: nat, c: nat, b: nat)
    requires len % 4 == 0
    requires var n := Min(len, 4 * c * b); n != 0 && c >= 1 && (n / 4) % c == 0
    ensures var n := Min(len, 4 * c * b); (n / 4) / c >= 1 && (len - n) % 4 == 0
  {
    var n := Min(len, 4 * c * b);
    if n != len {
      assert n == (c * b) * 4;
      DivModUnique(n, 4, c * b, 0);
    }
    var q := (n / 4) / c;
    assert n / 4 == c * q;
    DivModUnique(len - n, 4, len / 4 - n / 4, 0);
  }

  /** When the stream holds whole samples, no block is empty. */
  lemma {:induction false} BlocksNonEmpty(bytes: seq<Byte>, c: nat, b: nat)
    requires |bytes| % 4 == 0
    ensures forall i :: 0 <= i < |BlocksOf(bytes, c, b).blocks| ==> Frames(BlocksOf(bytes, c, b).blocks[i]) >= 1
    decreases |bytes|
  {
    var n := Min(|bytes|, 4 * c * b);
    if n != 0 {
      BlocksOfRead(bytes, c, b);
      if (n / 4) % c == 0 {
        ReadHasFrames(|bytes|, c, b);
        var blk := Deinterleave(Samples(bytes[..n]), c);
        assert Frames(blk) == (n / 4) / c;
        BlocksNonEmpty(bytes[n..], c, b);
      }
    }
  }

  /** A stream that ends in one to three stray bytes yields a block with no frames:
      `frombuffer` reads zero samples and the reshape to `(c, -1)` still succeeds. */
  lemma StrayBytesGiveEmptyBlock()
    ensures BlocksOf([0 as Byte, 0 as Byte], 1, 1) == BlockStream([[[]]], None)
  {
    var bytes := [0 as Byte, 0 as Byte];
    BlocksOfRead(bytes, 1, 1);
    assert Samples(bytes[..2]) == [];
    assert Deinterleave([], 1) == [[]];
    assert bytes[2..] == [];
  }
}
