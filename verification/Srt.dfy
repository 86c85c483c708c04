/**
  SubRip output: timestamps and numbered segments. Times are the milliseconds left after the program has
  rounded its seconds. The reader is this model's own; the program only prints.
 */
module Srt {
  import opened Wrappers
  import opened Ordering
  import opened Text

  // ---------------------------------------------------------------- timestamps

  function Pad2(n: nat): string {
    if n < 10 then "0" + Numeral(n) else Numeral(n)
  }

  function Pad3(n: nat): string {
    if n < 10 then "00" + Numeral(n) else if n < 100 then "0" + Numeral(n) else Numeral(n)
  }

  const HOUR := 3_600_000
  const MINUTE := 60_000
  const SECOND := 1_000

  /** Hours, minutes, seconds, milliseconds. */
  datatype Clock = Clock(hours: nat, minutes: nat, seconds: nat, millis: nat)

  function ClockOf(ms: nat): Clock {
    var afterHours := ms % HOUR;
    var afterMinutes := afterHours % MINUTE;
    Clock(ms / HOUR, afterHours / MINUTE, afterMinutes / SECOND, afterMinutes % SECOND)
  }

  function Millis(c: Clock): nat {
    c.hours * HOUR + c.minutes * MINUTE + c.seconds * SECOND + c.millis
  }

  /** The fields are in range and add up to the time. */
  lemma ClockRecombines(ms: nat)
    ensures var c := ClockOf(ms);
            && c.minutes < 60 && c.seconds < 60 && c.millis < 1000 && Millis(c) == ms
            && ms == 3_600_000 * c.hours + 60_000 * c.minutes + 1_000 * c.seconds + c.millis
  {
  }

  function FormatSrtTimestamp(ms: nat): string {
    var c := ClockOf(ms);
    Pad2(c.hours) + ":" + Pad2(c.minutes) + ":" + Pad2(c.seconds) + "," + Pad3(c.millis)
  }

  // ---------------------------------------------------------------- segments

  /** A transcribed segment, its text as the recogniser gave it. */
  datatype Segment = Segment(start: nat, end: nat, text: string)

  function Chunk(index: nat, s: Segment): string {
    Numeral(index) + "\n" + FormatSrtTimestamp(s.start) + " --> " + FormatSrtTimestamp(s.end) + "\n" + Strip(s.text) + "\n"
  }

  function Chunks(segments: seq<Segment>, first: nat): seq<string> {
    seq(|segments|, i requires 0 <= i < |segments| => Chunk(first + i, segments[i]))
  }

  method SegmentsToSrt(segments: seq<Segment>) returns (srt: string)
    ensures srt == Join(Chunks(segments, 1), '\n')
  {
    hide FormatSrtTimestamp, Numeral, Strip, Join;
    var chunks: seq<string> := [];
    for i := 0 to |segments|
      invariant chunks == Chunks(segments, 1)[..i]
    {
      var start := FormatSrtTimestamp(segments[i].start);
      var end := FormatSrtTimestamp(segments[i].end);
      var text := Strip(segments[i].text);
      var chunk := Numeral(i + 1) + "\n" + start + " --> " + end + "\n" + text + "\n";
      assert chunk == Chunk(i + 1, segments[i]) == Chunks(segments, 1)[i];
      chunks := chunks + [chunk];
    }
    assert Chunks(segments, 1)[..|segments|] == Chunks(segments, 1);
    srt := Join(chunks, '\n');
  }

  // ---------------------------------------------------------------- reading back

  function ReadNumber(s: string): Option<nat> {
    if AllDigits(s) then Some(NumeralValue(s)) else None
  }

  function ReadTimestamp(s: string): Option<nat> {
    var parts := Split(s, ':');
    if |parts| != 3 then None
    else
      var last := Split(parts[2], ',');
      if |last| != 2 then None
      else
        var h, m, sec, ms := ReadNumber(parts[0]), ReadNumber(parts[1]), ReadNumber(last[0]), ReadNumber(last[1]);
        if h.Some? && m.Some? && sec.Some? && ms.Some?
        then Some(Millis(Clock(h.value, m.value, sec.value, ms.value)))
        else None
  }

  datatype Cue = Cue(index: nat, start: nat, end: nat, text: string)

  function ReadCue(number: string, times: string, text: string): Option<Cue> {
    var parts := Split(times, ' ');
    if |parts| != 3 || parts[1] != "-->" then None
    else
      var i, start, end := ReadNumber(number), ReadTimestamp(parts[0]), ReadTimestamp(parts[2]);
      if i.Some? && start.Some? && end.Some? then Some(Cue(i.value, start.value, end.value, text)) else None
  }

  /** Four lines a cue: number, times, text, blank. */
  function ReadLines(lines: seq<string>): Option<seq<Cue>> {
    if lines == [] then Some([])
    else if |lines| < 4 || lines[3] != "" then None
    else
      var cue, rest := ReadCue(lines[0], lines[1], lines[2]), ReadLines(lines[4..]);
      if cue.Some? && rest.Some? then Some([cue.value] + rest.value) else None
  }

  function ReadSrt(srt: string): Option<seq<Cue>> {
    if srt == "" then Some([]) else ReadLines(Split(srt, '\n'))
  }

  /** What should come back: the segments numbered from `first`, with their texts stripped. */
  function Cues(segments: seq<Segment>, first: nat): seq<Cue> {
    seq(|segments|, i requires 0 <= i < |segments| =>
      Cue(first + i, segments[i].start, segments[i].end, Strip(segments[i].text)))
  }

  // ---------------------------------------------------------------- round trips

  lemma {:induction false} LeadingZero(s: string)
    requires AllDigits(s)
    ensures AllDigits("0" + s) && NumeralValue("0" + s) == NumeralValue(s)
  {
    assert ("0" + s)[..|s|] == "0" + s[..|s| - 1];
    if |s| == 1 {
      assert s[..0] == "" && "0" + s[..0] == "0";
      assert NumeralValue("0") == 0;
    } else {
      assert AllDigits(s[..|s| - 1]);
      LeadingZero(s[..|s| - 1]);
    }
  }

  lemma NumeralReads(n: nat)
    ensures ReadNumber(Numeral(n)) == Some(n)
  {
    NumeralRoundTrip(n);
  }

  lemma Pad2Reads(n: nat)
    ensures ReadNumber(Pad2(n)) == Some(n)
  {
    hide Numeral;
    NumeralRoundTrip(n);
    LeadingZero(Numeral(n));
  }

  lemma Pad3Reads(n: nat)
    ensures ReadNumber(Pad3(n)) == Some(n)
  {
    hide Numeral;
    NumeralRoundTrip(n);
    LeadingZero(Numeral(n));
    LeadingZero("0" + Numeral(n));
    assert "0" + ("0" + Numeral(n)) == "00" + Numeral(n);
  }

  lemma NumbersAvoid(s: string, c: char)
    requires ReadNumber(s).Some? && !IsDigit(c)
    ensures c !in s
  {
  }

  lemma SplitTime(h: string, m: string, s: string, t: string)
    requires ':' !in h && ':' !in m && ':' !in s && ':' !in t && ',' !in s && ',' !in t
    ensures Split(h + ":" + m + ":" + s + "," + t, ':') == [h, m, s + "," + t]
    ensures Split(s + "," + t, ',') == [s, t]
  {
    hide Split;
    var last := s + [','] + t;
    assert h + ":" + m + ":" + s + "," + t == h + [':'] + (m + [':'] + last);
    SplitFirst(h, ':', m + [':'] + last);
    SplitFirst(m, ':', last);
    WholePart(last, ':');
    SplitFirst(s, ',', t);
    WholePart(t, ',');
  }

  lemma WholePart(s: string, c: char)
    requires c !in s
    ensures Split(s, c) == [s]
  {
    IndexOfMissing(s, c);
  }

  lemma TimestampReads(ms: nat)
    ensures ReadTimestamp(FormatSrtTimestamp(ms)) == Some(ms)
    ensures ' ' !in FormatSrtTimestamp(ms) && '\n' !in FormatSrtTimestamp(ms)
  {
    hide Pad2, Pad3, ReadNumber, Split, ClockOf;
    var c := ClockOf(ms);
    var h, m, s, t := Pad2(c.hours), Pad2(c.minutes), Pad2(c.seconds), Pad3(c.millis);
    Pad2Reads(c.hours);
    Pad2Reads(c.minutes);
    Pad2Reads(c.seconds);
    Pad3Reads(c.millis);
    forall d | d in [':', ',', ' ', '\n'] ensures d !in h && d !in m && d !in s && d !in t {
      NumbersAvoid(h, d);
      NumbersAvoid(m, d);
      NumbersAvoid(s, d);
      NumbersAvoid(t, d);
    }
    SplitTime(h, m, s, t);
    ClockRecombines(ms);
  }

  function TimesLine(s: Segment): string {
    FormatSrtTimestamp(s.start) + " --> " + FormatSrtTimestamp(s.end)
  }

  lemma CueReads(index: nat, s: Segment)
    ensures ReadCue(Numeral(index), TimesLine(s), Strip(s.text)) == Some(Cue(index, s.start, s.end, Strip(s.text)))
    ensures '\n' !in Numeral(index) && '\n' !in TimesLine(s)
  {
    hide FormatSrtTimestamp, ReadTimestamp, ReadNumber, Split, Numeral;
    var a, b, arrow := FormatSrtTimestamp(s.start), FormatSrtTimestamp(s.end), "-->";
    TimestampReads(s.start);
    TimestampReads(s.end);
    NumeralReads(index);
    NumbersAvoid(Numeral(index), '\n');
    assert TimesLine(s) == a + [' '] + (arrow + [' '] + b);
    SplitFirst(a, ' ', arrow + [' '] + b);
    SplitFirst(arrow, ' ', b);
    WholePart(b, ' ');
  }

  predicate SingleLine(segments: seq<Segment>) {
    forall s | s in segments :: '\n' !in Strip(s.text)
  }

  /** The lines of a printed list: four a segment. */
  function Lines(segments: seq<Segment>, first: nat): seq<string> {
    if segments == [] then []
    else [Numeral(first), TimesLine(segments[0]), Strip(segments[0].text), ""] + Lines(segments[1..], first + 1)
  }

  lemma {:induction false} PrintedLines(segments: seq<Segment>, first: nat)
    requires segments != [] && SingleLine(segments)
    ensures Split(Join(Chunks(segments, first), '\n'), '\n') == Lines(segments, first)
    decreases |segments|
  {
    hide Numeral, TimesLine, Strip, Split, Join, Chunk;
    var s, rest := segments[0], segments[1..];
    CueReads(first, s);
    assert s in segments;
    assert Chunks(segments, first) == [Chunk(first, s)] + Chunks(rest, first + 1);
    if rest == [] {
      PrintedChunk(first, s, "");
      WholePart("", '\n');
      assert Chunks(rest, first + 1) == [];
      JoinCons(Chunk(first, s), [], '\n');
      assert Chunk(first, s) + "" == Chunk(first, s);
    } else {
      var more := Join(Chunks(rest, first + 1), '\n');
      PrintedChunk(first, s, "" + ['\n'] + more);
      SplitFirst("", '\n', more);
      PrintedLines(rest, first + 1);
      JoinCons(Chunk(first, s), Chunks(rest, first + 1), '\n');
      assert Chunk(first, s) + ("" + ['\n'] + more) == Chunk(first, s) + ['\n'] + more;
    }
  }

  lemma JoinCons(p: string, rest: seq<string>, c: char)
    ensures Join([p] + rest, c) == if rest == [] then p else p + [c] + Join(rest, c)
  {
    assert ([p] + rest)[1..] == rest;
  }

  lemma PrintedChunk(index: nat, s: Segment, tail: string)
    requires '\n' !in Strip(s.text)
    ensures Split(Chunk(index, s) + tail, '\n') ==
            [Numeral(index), TimesLine(s), Strip(s.text)] + Split(tail, '\n')
  {
    CueReads(index, s);
    hide Numeral, FormatSrtTimestamp, Strip, Split;
    var number, times, text := Numeral(index), TimesLine(s), Strip(s.text);
    assert Chunk(index, s) + tail == number + ['\n'] + (times + ['\n'] + (text + ['\n'] + tail));
    SplitFirst(number, '\n', times + ['\n'] + (text + ['\n'] + tail));
    SplitFirst(times, '\n', text + ['\n'] + tail);
    SplitFirst(text, '\n', tail);
  }

  lemma {:induction false} LinesRead(segments: seq<Segment>, first: nat)
    ensures ReadLines(Lines(segments, first)) == Some(Cues(segments, first))
    decreases |segments|
  {
    hide Numeral, TimesLine, Strip, ReadCue;
    if segments == [] {
      assert Cues(segments, first) == [];
    } else {
      CueReads(first, segments[0]);
      assert Lines(segments, first)[4..] == Lines(segments[1..], first + 1);
      LinesRead(segments[1..], first + 1);
      assert Cues(segments, first) == [Cue(first, segments[0].start, segments[0].end, Strip(segments[0].text))] +
                                      Cues(segments[1..], first + 1);
    }
  }

  lemma {:induction false} ReadTextsAreLines(lines: seq<string>)
    requires forall l | l in lines :: '\n' !in l
    ensures ReadLines(lines).Some? ==> forall c | c in ReadLines(lines).value :: '\n' !in c.text
    decreases |lines|
  {
    if lines != [] && |lines| >= 4 {
      ReadTextsAreLines(lines[4..]);
    }
  }

  /**
    Reading a printed list gives back exactly the segments, numbered from 1, with their times in milliseconds
    and their stripped texts, if and only if no stripped text runs over several lines.
   */
  lemma SrtRoundTrip(segments: seq<Segment>)
    ensures ReadSrt(Join(Chunks(segments, 1), '\n')) == Some(Cues(segments, 1)) <==> SingleLine(segments)
  {
    hide Split, ReadLines, Strip;
    var srt := Join(Chunks(segments, 1), '\n');
    if segments == [] {
      assert Chunks(segments, 1) == [] && Cues(segments, 1) == [];
    } else {
      assert Chunks(segments, 1)[0] == Chunk(1, segments[0]) != "";
      assert srt != "";
      if SingleLine(segments) {
        PrintedLines(segments, 1);
        LinesRead(segments, 1);
      } else {
        ReadTextsAreLines(Split(srt, '\n'));
        var s :| s in segments && '\n' in Strip(s.text);
        var i :| 0 <= i < |segments| && segments[i] == s;
        assert Cues(segments, 1)[i].text == Strip(s.text);
        assert Cues(segments, 1)[i] in Cues(segments, 1);
      }
    }
  }

  /** Two lists of single-line segments print alike exactly if they agree in times and stripped texts. */
  lemma SrtIsInjective(a: seq<Segment>, b: seq<Segment>)
    requires SingleLine(a) && SingleLine(b)
    ensures Join(Chunks(a, 1), '\n') == Join(Chunks(b, 1), '\n') <==> Cues(a, 1) == Cues(b, 1)
  {
    hide ReadSrt, Chunk, Join, SingleLine, Strip;
    SrtRoundTrip(a);
    SrtRoundTrip(b);
    if Cues(a, 1) == Cues(b, 1) {
      assert |Cues(a, 1)| == |a| && |Cues(b, 1)| == |b|;
      forall i | 0 <= i < |a| ensures Chunk(1 + i, a[i]) == Chunk(1 + i, b[i]) {
        assert Cues(a, 1)[i] == Cues(b, 1)[i];
        CueDeterminesChunk(1 + i, a[i], b[i]);
      }
      assert Chunks(a, 1) == Chunks(b, 1);
    }
  }

  lemma CueDeterminesChunk(index: nat, a: Segment, b: Segment)
    requires a.start == b.start && a.end == b.end && Strip(a.text) == Strip(b.text)
    ensures Chunk(index, a) == Chunk(index, b)
  {
  }

  // ---------------------------------------------------------------- order

  lemma {:induction false} StrLessConcat(x: string, u: string, y: string, v: string)
    requires |x| == |y|
    ensures StrLess(x + u, y + v) <==> StrLess(x, y) || (x == y && StrLess(u, v))
  {
    if x == "" {
      assert x + u == u && y + v == v;
    } else {
      assert (x + u)[1..] == x[1..] + u && (y + v)[1..] == y[1..] + v;
      assert x == [x[0]] + x[1..] && y == [y[0]] + y[1..];
      StrLessConcat(x[1..], u, y[1..], v);
    }
  }

  lemma TwoDigits(n: nat)
    requires n < 100
    ensures Pad2(n) == [DigitChar(n / 10), DigitChar(n % 10)]
  {
    if n < 10 {
      assert Numeral(n) == [DigitChar(n)];
    } else {
      assert Numeral(n / 10) == [DigitChar(n / 10)];
      assert Numeral(n) == Numeral(n / 10) + [DigitChar(n % 10)];
    }
  }

  lemma DigitsOfThree(n: nat)
    requires n < 1000
    ensures n / 10 / 10 == n / 100 && n / 10 % 10 == n % 100 / 10 && n % 10 == n % 100 % 10
  {
  }

  lemma ThreeDigits(n: nat)
    requires n < 1000
    ensures Pad3(n) == [DigitChar(n / 100)] + Pad2(n % 100)
  {
    TwoDigits(n % 100);
    DigitsOfThree(n);
    if n >= 100 {
      var tens := n / 10;
      assert Numeral(tens / 10) == [DigitChar(tens / 10)];
      assert Numeral(tens) == Numeral(tens / 10) + [DigitChar(tens % 10)];
      assert Numeral(n) == Numeral(tens) + [DigitChar(n % 10)];
    } else if n >= 10 {
      assert Numeral(n) == [DigitChar(n / 10), DigitChar(n % 10)] by {
        TwoDigits(n);
      }
    }
  }

  lemma OneDigitOrder(a: nat, b: nat)
    requires a < 10 && b < 10
    ensures StrLess([DigitChar(a)], [DigitChar(b)]) <==> a < b
    ensures [DigitChar(a)] == [DigitChar(b)] <==> a == b
  {
  }

  lemma Pad2Order(a: nat, b: nat)
    requires a < 100 && b < 100
    ensures |Pad2(a)| == |Pad2(b)| == 2 && (StrLess(Pad2(a), Pad2(b)) <==> a < b) && (Pad2(a) == Pad2(b) <==> a == b)
  {
    TwoDigits(a);
    TwoDigits(b);
    var x, u, y, v := [DigitChar(a / 10)], [DigitChar(a % 10)], [DigitChar(b / 10)], [DigitChar(b % 10)];
    assert Pad2(a) == x + u && Pad2(b) == y + v;
    StrLessConcat(x, u, y, v);
    OneDigitOrder(a / 10, b / 10);
    OneDigitOrder(a % 10, b % 10);
  }

  lemma Pad3Order(a: nat, b: nat)
    requires a < 1000 && b < 1000
    ensures |Pad3(a)| == |Pad3(b)| == 3 && (StrLess(Pad3(a), Pad3(b)) <==> a < b)
  {
    ThreeDigits(a);
    ThreeDigits(b);
    StrLessConcat([DigitChar(a / 100)], Pad2(a % 100), [DigitChar(b / 100)], Pad2(b % 100));
    OneDigitOrder(a / 100, b / 100);
    Pad2Order(a % 100, b % 100);
  }

  /** The order of two fields with the same separator after them. */
  lemma FieldOrder(x: string, u: string, y: string, v: string, separator: string)
    requires |x| == |y|
    ensures StrLess(x + separator + u, y + separator + v) <==> StrLess(x, y) || (x == y && StrLess(u, v))
  {
    hide StrLess;
    StrLessConcat(x, separator + u, y, separator + v);
    StrLessConcat(separator, u, separator, v);
    StrLessIrreflexive(separator);
    assert x + separator + u == x + (separator + u) && y + separator + v == y + (separator + v);
  }

  /** Below 100 hours, timestamps sort as strings in the order of their times. */
  lemma TimestampsSort(a: nat, b: nat)
    requires a < 360_000_000 && b < 360_000_000
    ensures StrLess(FormatSrtTimestamp(a), FormatSrtTimestamp(b)) <==> a < b
  {
    hide Pad2, Pad3, StrLess;
    var c, d := ClockOf(a), ClockOf(b);
    ClockRecombines(a);
    ClockRecombines(b);
    Pad2Order(c.hours, d.hours);
    Pad2Order(c.minutes, d.minutes);
    Pad2Order(c.seconds, d.seconds);
    Pad3Order(c.millis, d.millis);
    var s1, s2 := Pad2(c.seconds) + "," + Pad3(c.millis), Pad2(d.seconds) + "," + Pad3(d.millis);
    var m1, m2 := Pad2(c.minutes) + ":" + s1, Pad2(d.minutes) + ":" + s2;
    FieldOrder(Pad2(c.seconds), Pad3(c.millis), Pad2(d.seconds), Pad3(d.millis), ",");
    FieldOrder(Pad2(c.minutes), s1, Pad2(d.minutes), s2, ":");
    FieldOrder(Pad2(c.hours), m1, Pad2(d.hours), m2, ":");
    assert FormatSrtTimestamp(a) == Pad2(c.hours) + ":" + m1 && FormatSrtTimestamp(b) == Pad2(d.hours) + ":" + m2;
  }

  // ---------------------------------------------------------------- as it stands in a file

  /** Hours, minutes, seconds and milliseconds, at their places and widths; only the hours can be wider. */
  lemma TimestampAs(h: nat, m: nat, s: nat, t: nat)
    requires m < 60 && s < 60 && t < 1000
    ensures FormatSrtTimestamp(3_600_000 * h + 60_000 * m + 1_000 * s + t) ==
            Pad2(h) + ":" + Pad2(m) + ":" + Pad2(s) + "," + Pad3(t)
  {
    hide Numeral, Pad2, Pad3;
    ClockAs(h, m, s, t);
  }

  /** The fields are decimal and padded with zeros. */
  lemma PadsAs(n: nat)
    requires n < 1000
    ensures n < 100 ==> Pad2(n) == ["0123456789"[n / 10], "0123456789"[n % 10]]
    ensures n >= 10 ==> Pad2(n) == Numeral(n)
    ensures Pad3(n) == ["0123456789"[n / 100], "0123456789"[n / 10 % 10], "0123456789"[n % 10]]
  {
    hide Numeral, Pad3;
    DigitAs(n / 10 % 10);
    DigitAs(n % 10);
    DigitAs(n / 100);
    TwoDigits(n % 100);
    ThreeDigits(n);
    DigitsOfThree(n);
    if n < 100 {
      TwoDigits(n);
    }
  }

  lemma DigitAs(d: nat)
    requires d < 10
    ensures DigitChar(d) == "0123456789"[d]
  {
  }

  lemma ClockAs(h: nat, m: nat, s: nat, t: nat)
    requires m < 60 && s < 60 && t < 1000
    ensures ClockOf(3_600_000 * h + 60_000 * m + 1_000 * s + t) == Clock(h, m, s, t)
  {
    var rest := 60_000 * m + 1_000 * s + t;
    assert (3_600_000 * h + rest) / 3_600_000 == h && (3_600_000 * h + rest) % 3_600_000 == rest;
  }

  lemma SmallTimes()
    ensures FormatSrtTimestamp(0) == "00" + ":" + "00" + ":" + "00" + "," + "000"
    ensures FormatSrtTimestamp(1_500) == "00" + ":" + "00" + ":" + "01" + "," + "500"
    ensures FormatSrtTimestamp(61_000) == "00" + ":" + "01" + ":" + "01" + "," + "000"
  {
    hide FormatSrtTimestamp, Pad2, Pad3;
    TimestampAs(0, 0, 0, 0);
    TimestampAs(0, 0, 1, 500);
    TimestampAs(0, 1, 1, 0);
    PadsAs(0);
    PadsAs(1);
    PadsAs(500);
  }

  /** Two cues as they stand in a file: number, times and stripped text, each on a line, and a blank line between the two. */
  lemma PrintedExample()
    ensures Join(Chunks([Segment(0, 1_500, " Hi "), Segment(1_500, 61_000, "Ho")], 1), '\n') ==
            ("1" + "\n" + "00:00:00,000" + " --> " + "00:00:01,500" + "\n" + "Hi" + "\n") + "\n" +
            ("2" + "\n" + "00:00:01,500" + " --> " + "00:01:01,000" + "\n" + "Ho" + "\n")
  {
    hide FormatSrtTimestamp, Strip, Numeral;
    SmallTimes();
    assert "00" + ":" + "00" + ":" + "00" + "," + "000" == "00:00:00,000";
    assert "00" + ":" + "00" + ":" + "01" + "," + "500" == "00:00:01,500";
    assert "00" + ":" + "01" + ":" + "01" + "," + "000" == "00:01:01,000";
    FirstNumerals();
    assert " " + "Hi" + " " == " Hi " && "" + "Ho" + "" == "Ho";
    StripPadded(" ", "Hi", " ");
    StripPadded("", "Ho", "");
    var a, b := Segment(0, 1_500, " Hi "), Segment(1_500, 61_000, "Ho");
    var x, y := Chunk(1, a), Chunk(2, b);
    assert Chunks([a, b], 1) == [x] + [y];
    hide Chunk, Chunks;
    JoinCons(x, [y], '\n');
  }

  lemma FirstNumerals()
    ensures Numeral(1) == "1" && Numeral(2) == "2"
  {
  }
}
