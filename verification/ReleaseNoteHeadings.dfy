/** The heading pass of tools/prepare-appstore-release-notes.js. */
module ReleaseNoteHeadings {
  datatype Kind = Heading | Blank | Content

  /** A line with what the script's patterns say about it; a heading is never blank. */
  datatype Line = Line(text: string, kind: Kind, namesOtherPlatform: bool)

  /** Forward view: a content line occurs before the next heading, or before the end. */
  predicate HasContentAhead(lines: seq<Line>) {
    lines != [] && !lines[0].kind.Heading? && (lines[0].kind.Content? || HasContentAhead(lines[1..]))
  }

  /** In plain terms: some content line has no heading before it. */
  lemma {:induction false} HasContentAheadIff(lines: seq<Line>)
    ensures HasContentAhead(lines) <==>
            exists i :: 0 <= i < |lines| && lines[i].kind.Content? && forall j | 0 <= j < i :: !lines[j].kind.Heading?
  {
    if lines != [] {
      var rest := lines[1..];
      HasContentAheadIff(rest);
      if HasContentAhead(rest) && !lines[0].kind.Heading? {
        var i :| 0 <= i < |rest| && rest[i].kind.Content? && forall j | 0 <= j < i :: !rest[j].kind.Heading?;
        assert lines[i + 1].kind.Content? && forall j | 0 < j < i + 1 :: lines[j] == rest[j - 1];
      }
      if i :| 0 < i < |lines| && lines[i].kind.Content? && forall j | 0 <= j < i :: !lines[j].kind.Heading? {
        assert rest[i - 1].kind.Content? && forall j | 0 <= j < i - 1 :: rest[j] == lines[j + 1];
      }
    }
  }

  /** Forward specification of `dropEmptyHeadings`, line by line. */
  function WithoutEmptyHeadings(lines: seq<Line>): seq<Line> {
    if lines == [] then []
    else if lines[0].kind.Heading? && !HasContentAhead(lines[1..]) then WithoutEmptyHeadings(lines[1..])
    else [lines[0]] + WithoutEmptyHeadings(lines[1..])
  }

  function Reversed(lines: seq<Line>): (r: seq<Line>)
    ensures |r| == |lines|
  {
    if lines == [] then [] else Reversed(lines[1..]) + [lines[0]]
  }

  lemma {:induction false} ReversedPush(lines: seq<Line>, line: Line)
    ensures Reversed(lines + [line]) == [line] + Reversed(lines)
  {
    if lines != [] {
      assert (lines + [line])[1..] == lines[1..] + [line];
      ReversedPush(lines[1..], line);
    }
  }

  /** One backward pass with a flag; the result is what the forward specification says. */
  method DropEmptyHeadings(lines: seq<Line>) returns (kept: seq<Line>)
    ensures kept == WithoutEmptyHeadings(lines)
  {
    var reversed: seq<Line> := [];
    var sawContentSinceHeading := false;
    var i := |lines|;
    while i > 0
      invariant 0 <= i <= |lines|
      invariant sawContentSinceHeading == HasContentAhead(lines[i..])
      invariant Reversed(reversed) == WithoutEmptyHeadings(lines[i..])
    {
      i := i - 1;
      var line := lines[i];
      assert lines[i..][1..] == lines[i + 1..];
      if line.kind.Heading? {
        if !sawContentSinceHeading {
          continue;
        }
        sawContentSinceHeading := false;
      } else if line.kind.Content? {
        sawContentSinceHeading := true;
      }
      ReversedPush(reversed, line);
      reversed := reversed + [line];
    }
    assert lines[0..] == lines;
    kept := Reversed(reversed);
  }

  /** JavaScript's `filter`. */
  function Filter(lines: seq<Line>, keep: Line -> bool): seq<Line> {
    if lines == [] then []
    else (if keep(lines[0]) then [lines[0]] else []) + Filter(lines[1..], keep)
  }

  function KeptAlone(line: Line, keep: Line -> bool): seq<Line> {
    if keep(line) then [line] else []
  }

  lemma FilterCons(line: Line, rest: seq<Line>, keep: Line -> bool)
    ensures Filter([line] + rest, keep) == KeptAlone(line, keep) + Filter(rest, keep)
  {
    assert ([line] + rest)[1..] == rest;
  }

  /** Piece by piece: each line is kept or not by itself, in its place. */
  lemma {:induction false} FilterSplits(a: seq<Line>, b: seq<Line>, keep: Line -> bool)
    ensures Filter(a + b, keep) == Filter(a, keep) + Filter(b, keep)
  {
    if a == [] {
      assert a + b == b;
    } else {
      FilterSplits(a[1..], b, keep);
      FilterCons(a[0], a[1..] + b, keep);
      FilterCons(a[0], a[1..], keep);
      assert [a[0]] + (a[1..] + b) == a + b && [a[0]] + a[1..] == a;
    }
  }

  lemma {:induction false} FilterOfAlike(lines: seq<Line>, keep: Line -> bool)
    ensures (forall i | 0 <= i < |lines| :: keep(lines[i])) ==> Filter(lines, keep) == lines
    ensures (forall i | 0 <= i < |lines| :: !keep(lines[i])) ==> Filter(lines, keep) == []
  {
    if lines != [] {
      FilterOfAlike(lines[1..], keep);
      assert lines == [lines[0]] + lines[1..];
      assert forall i | 0 <= i < |lines| - 1 :: lines[1..][i] == lines[i + 1];
    }
  }

  predicate NamesOther(line: Line) {
    line.namesOtherPlatform
  }

  predicate NamesNoOther(line: Line) {
    !line.namesOtherPlatform
  }

  predicate IsNoHeading(line: Line) {
    !line.kind.Heading?
  }

  function WithoutOtherPlatforms(lines: seq<Line>): seq<Line> {
    Filter(lines, NamesNoOther)
  }

  function OtherPlatformLines(lines: seq<Line>): seq<Line> {
    Filter(lines, NamesOther)
  }

  /** Wherever it stands, a line goes exactly if it names another platform, and exactly then it is reported. */
  lemma PlatformLinesGo(before: seq<Line>, line: Line, after: seq<Line>)
    ensures WithoutOtherPlatforms(before + [line] + after) ==
            WithoutOtherPlatforms(before) + (if line.namesOtherPlatform then [] else [line]) + WithoutOtherPlatforms(after)
    ensures OtherPlatformLines(before + [line] + after) ==
            OtherPlatformLines(before) + (if line.namesOtherPlatform then [line] else []) + OtherPlatformLines(after)
    ensures WithoutOtherPlatforms([]) == [] == OtherPlatformLines([])
  {
    FilterSplits(before + [line], after, NamesNoOther);
    FilterSplits(before, [line], NamesNoOther);
    FilterSplits(before + [line], after, NamesOther);
    FilterSplits(before, [line], NamesOther);
    FilterOfAlike([line], NamesNoOther);
    FilterOfAlike([line], NamesOther);
  }

  lemma PartitionStep(lines: seq<Line>, i: nat)
    requires i < |lines|
    ensures WithoutOtherPlatforms(lines[i..]) ==
            (if lines[i].namesOtherPlatform then [] else [lines[i]]) + WithoutOtherPlatforms(lines[i + 1..])
    ensures OtherPlatformLines(lines[i..]) ==
            (if lines[i].namesOtherPlatform then [lines[i]] else []) + OtherPlatformLines(lines[i + 1..])
  {
    assert lines[i..][1..] == lines[i + 1..];
  }

  /** `stripOtherPlatformLines` on the split text; `dropped` is what `onDrop` reports. */
  method StripOtherPlatformLines(lines: seq<Line>) returns (result: seq<Line>, dropped: seq<Line>)
    ensures result == WithoutEmptyHeadings(WithoutOtherPlatforms(lines))
    ensures dropped == OtherPlatformLines(lines)
  {
    var kept: seq<Line> := [];
    dropped := [];
    assert lines[0..] == lines;
    for i := 0 to |lines|
      invariant WithoutOtherPlatforms(lines) == kept + WithoutOtherPlatforms(lines[i..])
      invariant OtherPlatformLines(lines) == dropped + OtherPlatformLines(lines[i..])
    {
      PartitionStep(lines, i);
      if lines[i].namesOtherPlatform {
        dropped := dropped + [lines[i]];
      } else {
        kept := kept + [lines[i]];
      }
    }
    assert lines[|lines|..] == [] && kept + [] == kept;
    result := DropEmptyHeadings(kept);
  }

  /** Every heading is followed by content before the next heading. */
  predicate NoEmptyHeading(lines: seq<Line>) {
    forall i | 0 <= i < |lines| && lines[i].kind.Heading? :: HasContentAhead(lines[i + 1..])
  }

  lemma {:induction false} ContentAheadSurvives(lines: seq<Line>)
    ensures HasContentAhead(lines) ==> HasContentAhead(WithoutEmptyHeadings(lines))
  {
    if HasContentAhead(lines) {
      ContentAheadSurvives(lines[1..]);
      assert ([lines[0]] + WithoutEmptyHeadings(lines[1..]))[1..] == WithoutEmptyHeadings(lines[1..]);
    }
  }

  /** No heading of the result is empty. */
  lemma {:induction false} ResultHasNoEmptyHeading(lines: seq<Line>)
    ensures NoEmptyHeading(WithoutEmptyHeadings(lines))
  {
    if lines != [] {
      ResultHasNoEmptyHeading(lines[1..]);
      ContentAheadSurvives(lines[1..]);
      var rest := WithoutEmptyHeadings(lines[1..]);
      if !lines[0].kind.Heading? || HasContentAhead(lines[1..]) {
        var kept := [lines[0]] + rest;
        forall i | 0 <= i < |kept| && kept[i].kind.Heading?
          ensures HasContentAhead(kept[i + 1..])
        {
          if i > 0 {
            assert kept[i + 1..] == rest[i..];
            assert rest[i - 1].kind.Heading?;
          } else {
            assert kept[1..] == rest;
          }
        }
      }
    }
  }

  /** A text without empty headings is left alone. */
  lemma {:induction false} CleanTextIsUnchanged(lines: seq<Line>)
    requires NoEmptyHeading(lines)
    ensures WithoutEmptyHeadings(lines) == lines
  {
    if lines != [] {
      assert forall i | 0 <= i < |lines[1..]| :: lines[1..][i] == lines[i + 1] && lines[1..][i + 1..] == lines[i + 2..];
      CleanTextIsUnchanged(lines[1..]);
    }
  }

  lemma DropIsIdempotent(lines: seq<Line>)
    ensures WithoutEmptyHeadings(WithoutEmptyHeadings(lines)) == WithoutEmptyHeadings(lines)
  {
    ResultHasNoEmptyHeading(lines);
    CleanTextIsUnchanged(WithoutEmptyHeadings(lines));
  }

  function NonHeadings(lines: seq<Line>): seq<Line> {
    Filter(lines, IsNoHeading)
  }

  /** Dropping headings touches nothing else: the other lines stay, in order. */
  lemma {:induction false} OtherLinesStay(lines: seq<Line>)
    ensures NonHeadings(WithoutEmptyHeadings(lines)) == NonHeadings(lines)
  {
    if lines != [] {
      OtherLinesStay(lines[1..]);
      assert ([lines[0]] + WithoutEmptyHeadings(lines[1..]))[1..] == WithoutEmptyHeadings(lines[1..]);
    }
  }

  lemma {:induction false} KeptLinesAreLines(lines: seq<Line>, i: nat)
    requires i < |WithoutEmptyHeadings(WithoutOtherPlatforms(lines))|
    ensures !WithoutEmptyHeadings(WithoutOtherPlatforms(lines))[i].namesOtherPlatform
  {
    FilterKeepsOnly(lines, NamesNoOther);
    HeadingsPassOnly(WithoutOtherPlatforms(lines), i);
  }

  lemma {:induction false} FilterKeepsOnly(lines: seq<Line>, keep: Line -> bool)
    ensures forall i | 0 <= i < |Filter(lines, keep)| :: keep(Filter(lines, keep)[i])
  {
    if lines != [] {
      FilterKeepsOnly(lines[1..], keep);
    }
  }

  lemma {:induction false} HeadingsPassOnly(lines: seq<Line>, i: nat)
    requires i < |WithoutEmptyHeadings(lines)|
    ensures WithoutEmptyHeadings(lines)[i] in lines
  {
    var rest := WithoutEmptyHeadings(lines[1..]);
    if WithoutEmptyHeadings(lines) == rest {
      HeadingsPassOnly(lines[1..], i);
    } else if i > 0 {
      HeadingsPassOnly(lines[1..], i - 1);
    }
  }

  /** The stripped notes name no listed platform and contain no empty heading. */
  lemma StrippedNotesAreClean(lines: seq<Line>)
    ensures var result := WithoutEmptyHeadings(WithoutOtherPlatforms(lines));
            && NoEmptyHeading(result)
            && (forall i | 0 <= i < |result| :: !result[i].namesOtherPlatform)
            && NonHeadings(result) == NonHeadings(WithoutOtherPlatforms(lines))
  {
    ResultHasNoEmptyHeading(WithoutOtherPlatforms(lines));
    OtherLinesStay(WithoutOtherPlatforms(lines));
    forall i | 0 <= i < |WithoutEmptyHeadings(WithoutOtherPlatforms(lines))| {
      KeptLinesAreLines(lines, i);
    }
  }
}
