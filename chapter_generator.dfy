/** `generateChapterMetadata`: the FFmpeg metadata text listing one
    `CHAPTERn=<start ms>` line and one `CHAPTERnNAME=Chapter n` line per
    chapter, for every chapter time but the last (which is the end of the
    title). */
module ChapterGenerator {
  import opened Text
  import opened Utils
  import MplsParser

  /** The start line of chapter i + 1. */
  function StartLine(i: nat, t: nat): string
  {
    "CHAPTER" + Decimal(i + 1) + "=" + Decimal(t)
  }

  /** The name line of chapter i + 1. */
  function NameLine(i: nat): string
  {
    "CHAPTER" + Decimal(i + 1) + "NAME=Chapter " + Decimal(i + 1)
  }

  /** The lines written for the first `n` chapter times: a start line and a
      name line per chapter, chapters in order. */
  function ChapterLines(times: seq<nat>, n: nat): (lines: seq<string>)
    requires n <= |times|
    ensures |lines| == 2 * n
  {
    if n == 0 then [] else ChapterLines(times, n - 1) + [StartLine(n - 1, times[n - 1]), NameLine(n - 1)]
  }

  /** Line 2i is chapter i + 1's start line, line 2i + 1 its name line. */
  lemma {:induction false} ChapterLinesAt(times: seq<nat>, n: nat)
    requires n <= |times|
    ensures var lines := ChapterLines(times, n);
      forall j | 0 <= j < |lines| ::
        lines[j] == if j % 2 == 0 then StartLine(j / 2, times[j / 2]) else NameLine(j / 2)
  {
    if n > 0 {
      ChapterLinesAt(times, n - 1);
      var lines := ChapterLines(times, n);
      forall j | 2 * (n - 1) <= j < 2 * n
        ensures lines[j] == if j % 2 == 0 then StartLine(j / 2, times[j / 2]) else NameLine(j / 2)
      {
        assert j / 2 == n - 1;
      }
    }
  }

  /** The text for `times`: the lines of all chapter times but the last. */
  function ChapterText(times: seq<nat>): string
    requires |times| >= 1
  {
    JoinLines(ChapterLines(times, |times| - 1))
  }

  /** generateChapterMetadata: the index loop `i < chapterTimes.size() - 1`
      appending two lines per step. `chapterTimes` must not be empty: its
      `size() - 1` would wrap around and the loop would read outside it. */
  method GenerateChapterMetadata(mplsInfo: MplsParser.MplsInfo) returns (text: string)
    requires |mplsInfo.chapterTimes| >= 1
    ensures text == ChapterText(mplsInfo.chapterTimes)
  {
    var times := mplsInfo.chapterTimes;
    text := "";
    var i := 0;
    while i < |times| - 1
      invariant i <= |times| - 1
      invariant text == JoinLines(ChapterLines(times, i))
    {
      var startTimeMs := times[i];
      var endTimeMs := times[i + 1];
      text := text + ("CHAPTER" + Decimal(i + 1) + "=" + Decimal(startTimeMs)) + "\n";
      text := text + ("CHAPTER" + Decimal(i + 1) + "NAME=Chapter " + Decimal(i + 1)) + "\n";
      ChapterLinesStep(times, i);
      i := i + 1;
    }
  }

  /** One more chapter appends its start line and its name line to the text. */
  lemma ChapterLinesStep(times: seq<nat>, i: nat)
    requires i < |times|
    ensures JoinLines(ChapterLines(times, i + 1))
         == JoinLines(ChapterLines(times, i)) + StartLine(i, times[i]) + "\n" + NameLine(i) + "\n"
  {
    var a, b := StartLine(i, times[i]) + "\n", NameLine(i) + "\n";
    var two := [StartLine(i, times[i]), NameLine(i)];
    var j := JoinLines(ChapterLines(times, i));
    assert ChapterLines(times, i + 1) == ChapterLines(times, i) + two;
    JoinLinesAppend(ChapterLines(times, i), two);
    assert two[1..] == [NameLine(i)] && [NameLine(i)][1..] == [];
    assert JoinLines([NameLine(i)]) == b + [] == b;
    assert JoinLines(two) == a + b;
    assert j + (a + b) == j + StartLine(i, times[i]) + "\n" + NameLine(i) + "\n";
  }

  /** No line contains a newline. */
  lemma ChapterLinesSingle(times: seq<nat>, n: nat)
    requires n <= |times|
    ensures forall l | l in ChapterLines(times, n) :: '\n' !in l
  {
    var lines := ChapterLines(times, n);
    ChapterLinesAt(times, n);
    forall j | 0 <= j < |lines|
      ensures '\n' !in lines[j]
    {
      LinesSingle(j / 2, times[j / 2]);
    }
  }

  lemma LinesSingle(i: nat, t: nat)
    ensures '\n' !in StartLine(i, t) && '\n' !in NameLine(i)
  {
    DecimalShape(i + 1);
    DecimalShape(t);
    var a, b := Decimal(i + 1), Decimal(t);
    assert '\n' !in a && '\n' !in b;
  }

  /** The text splits at its newlines into exactly 2·(n − 1) lines for n
      chapter times: chapter i + 1's start line (holding chapterTimes[i]) then
      its name line. */
  lemma ChapterTextLines(times: seq<nat>)
    requires |times| >= 1
    ensures var lines := Split(ChapterText(times), '\n');
      && |lines| == 2 * (|times| - 1)
      && forall i | 0 <= i < |times| - 1 ::
           lines[2 * i] == StartLine(i, times[i]) && lines[2 * i + 1] == NameLine(i)
  {
    var lines := ChapterLines(times, |times| - 1);
    ChapterLinesAt(times, |times| - 1);
    ChapterLinesSingle(times, |times| - 1);
    SplitJoinLines(lines);
    forall i | 0 <= i < |times| - 1
      ensures lines[2 * i] == StartLine(i, times[i]) && lines[2 * i + 1] == NameLine(i)
    {
      assert (2 * i) / 2 == i && (2 * i + 1) / 2 == i && (2 * i + 1) % 2 == 1;
    }
  }

  /** The chapter time a start line carries reads back from it: the line is
      "CHAPTER", the chapter number, "=", then the time's digits. */
  lemma StartLineTime(i: nat, t: nat)
    ensures var l := StartLine(i, t); var k := 8 + |Decimal(i + 1)|;
      && k <= |l| && l[..7] == "CHAPTER" && l[k - 1] == '='
      && AllDigits(l[k..]) && DecimalValue(l[k..]) == t
  {
    var l := StartLine(i, t);
    var k := 8 + |Decimal(i + 1)|;
    DecimalRoundTrip(t);
    assert l[k..] == Decimal(t);
  }

  /** The last chapter time never reaches the text: times that differ only
      in their last entry give the same text. */
  lemma {:induction false} LastTimeNotEmitted(times: seq<nat>, times': seq<nat>)
    requires |times| == |times'| >= 1
    requires times[..|times| - 1] == times'[..|times'| - 1]
    ensures ChapterText(times) == ChapterText(times')
  {
    var n := |times| - 1;
    var a, b := ChapterLines(times, n), ChapterLines(times', n);
    ChapterLinesAt(times, n);
    ChapterLinesAt(times', n);
    forall j | 0 <= j < |a|
      ensures a[j] == b[j]
    {
      assert times[j / 2] == times[..n][j / 2];
      assert times'[j / 2] == times'[..n][j / 2];
    }
    assert a == b;
  }

  /** One chapter time (a title that only has its end) gives the empty text. */
  lemma SingleTimeEmpty(t: nat)
    ensures ChapterText([t]) == ""
  {
  }

  /** After a successful parse of n segments the text names chapters 1..n
      and chapter 1 starts at 0. */
  lemma ChapterTextOfParse(segs: seq<MplsParser.Segment>)
    requires |segs| >= 1
    ensures var times := MplsParser.InfoAfter(segs, true).chapterTimes;
      && |times| == |segs| + 1
      && |Split(ChapterText(times), '\n')| == 2 * |segs|
      && Split(ChapterText(times), '\n')[0] == "CHAPTER1=0"
  {
    var times := MplsParser.InfoAfter(segs, true).chapterTimes;
    MplsParser.ChapterTimesEnds(segs);
    ChapterTextLines(times);
    assert StartLine(0, 0) == "CHAPTER1=0";
  }
}
