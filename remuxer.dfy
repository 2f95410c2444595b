/** `generateConcatFileContent`: the list file handed to FFmpeg's concat
    demuxer, one `file '<path>'` line per segment. */
module Remuxer {
  import opened Utils
  import MplsParser

  /** The line written for a segment: its path between single quotes, taken
      verbatim (a quote inside the path is not escaped). */
  function ConcatLine(segment: MplsParser.Segment): string
  {
    "file '" + segment.m2tsPath + "'"
  }

  /** The lines for `segments`, in order. */
  function ConcatLines(segments: seq<MplsParser.Segment>): seq<string>
  {
    seq(|segments|, k requires 0 <= k < |segments| => ConcatLine(segments[k]))
  }

  /** generateConcatFileContent: the loop over segments writing one line each. */
  method GenerateConcatFileContent(segments: seq<MplsParser.Segment>) returns (content: string)
    ensures content == JoinLines(ConcatLines(segments))
  {
    content := "";
    for k := 0 to |segments|
      invariant content == JoinLines(ConcatLines(segments[..k]))
    {
      var segment := segments[k];
      content := content + ("file '" + segment.m2tsPath + "'") + "\n";
      ConcatLinesStep(segments, k);
    }
    assert segments[..|segments|] == segments;
  }

  /** One more segment appends its line. */
  lemma ConcatLinesStep(segments: seq<MplsParser.Segment>, k: nat)
    requires k < |segments|
    ensures JoinLines(ConcatLines(segments[..k + 1]))
         == JoinLines(ConcatLines(segments[..k])) + ConcatLine(segments[k]) + "\n"
  {
    var line := ConcatLine(segments[k]);
    assert ConcatLines(segments[..k + 1]) == ConcatLines(segments[..k]) + [line];
    JoinLinesAppend(ConcatLines(segments[..k]), [line]);
    assert [line][1..] == [];
    assert JoinLines([line]) == line + "\n" + [] == line + "\n";
  }

  /** No segments, no text. */
  lemma EmptyConcatFile()
    ensures JoinLines(ConcatLines([])) == ""
  {
  }

  /** When no path contains a newline, the file has exactly one line per
      segment, the k-th naming the k-th segment's path. */
  lemma {:induction false} ConcatFileLines(segments: seq<MplsParser.Segment>)
    requires forall k | 0 <= k < |segments| :: '\n' !in segments[k].m2tsPath
    ensures var lines := Split(JoinLines(ConcatLines(segments)), '\n');
      && |lines| == |segments|
      && forall k | 0 <= k < |segments| :: lines[k] == "file '" + segments[k].m2tsPath + "'"
  {
    var lines := ConcatLines(segments);
    forall l | l in lines
      ensures '\n' !in l
    {
      var k :| 0 <= k < |lines| && lines[k] == l;
      var p := segments[k].m2tsPath;
      assert l == "file '" + p + "'";
      assert forall j | 0 <= j < |l| :: l[j] == if j < 6 then "file '"[j] else if j < 6 + |p| then p[j - 6] else '\'';
    }
    SplitJoinLines(lines);
  }

  /** The path is recovered from its line by dropping the six-character
      prefix and the closing quote, whatever quotes it contains. */
  lemma ConcatLinePath(segment: MplsParser.Segment)
    ensures var l := ConcatLine(segment);
      |l| == |segment.m2tsPath| + 7 && l[6..|l| - 1] == segment.m2tsPath
  {
  }

  /** Only the paths matter: segments with the same paths give the same
      file whatever their times. */
  lemma OnlyPathsUsed(segments: seq<MplsParser.Segment>, segments': seq<MplsParser.Segment>)
    requires |segments| == |segments'|
    requires forall k | 0 <= k < |segments| :: segments[k].m2tsPath == segments'[k].m2tsPath
    ensures JoinLines(ConcatLines(segments)) == JoinLines(ConcatLines(segments'))
  {
    assert ConcatLines(segments) == ConcatLines(segments');
  }
}
