/** Runs as a cover of the text they were cut from. */
module RunList {
  import opened Wrappers
  import opened Basics
  import opened DocumentTypes
  import opened TextFlow

  /** The style and link in force when a byte of text was appended. */
  datatype Mark = Mark(style: Style, link: Option<nat>)

  ghost function Marks(count: nat, style: Style, link: Option<nat>): seq<Mark> {
    seq(count, _ => Mark(style, link))
  }

  /** The marks only grew, and all that is new bears one style and link. */
  ghost predicate Grown(before: seq<Mark>, after: seq<Mark>, style: Style, link: Option<nat>) {
    && |before| <= |after|
    && forall k :: 0 <= k < |after| ==> after[k] == if k < |before| then before[k] else Mark(style, link)
  }

  function RunsEnd(runs: seq<Run>): nat {
    if runs == [] then 0 else runs[|runs| - 1].end
  }

  /** What the runs say about the text, byte by byte. */
  ghost function Expand(runs: seq<Run>): seq<Mark> {
    if runs == [] then []
    else
      var last, before := runs[|runs| - 1], Expand(runs[..|runs| - 1]);
      before + Marks(if last.start < last.end then last.end - last.start else 0, last.style, last.link)
  }

  /** Each run begins where the one before it ended. */
  ghost predicate Contiguous(runs: seq<Run>) {
    && (runs != [] ==> runs[0].start == 0)
    && forall i, j :: 0 <= i && j == i + 1 < |runs| ==> runs[i].end == runs[j].start
  }

  /** Between `start` and `end` one style and link were in force. */
  ghost predicate Says(marks: seq<Mark>, start: nat, end: nat, style: Style, link: Option<nat>)
    decreases end
  {
    start <= end <= |marks|
        && (start < end ==> marks[end - 1] == Mark(style, link) && Says(marks, start, end - 1, style, link))
  }

  lemma {:induction false} SaysAt(marks: seq<Mark>, start: nat, end: nat, style: Style, link: Option<nat>, k: nat)
    requires Says(marks, start, end, style, link) && start <= k < end
    ensures marks[k] == Mark(style, link)
    decreases end
  {
    if k < end - 1 {
      SaysAt(marks, start, end - 1, style, link, k);
    }
  }

  lemma {:induction false} SaysStill(marks: seq<Mark>, start: nat, end: nat, style: Style, link: Option<nat>,
                                     more: seq<Mark>)
    requires Says(marks, start, end, style, link) && marks <= more
    ensures Says(more, start, end, style, link)
    decreases end
  {
    if start < end {
      SaysStill(marks, start, end - 1, style, link, more);
    }
  }

  lemma {:induction false} SaysMore(marks: seq<Mark>, start: nat, count: nat, style: Style, link: Option<nat>)
    requires Says(marks, start, |marks|, style, link)
    ensures Says(marks + Marks(count, style, link), start, |marks| + count, style, link)
  {
    var more := marks + Marks(count, style, link);
    if count == 0 {
      assert more == marks;
    } else {
      SaysMore(marks, start, count - 1, style, link);
      SaysStill(marks + Marks(count - 1, style, link), start, |marks| + count - 1, style, link, more);
    }
  }

  /** A link that is among the first `count`. */
  predicate Known(link: Option<nat>, count: nat) {
    link.Some? ==> link.value < count
  }

  /** The runs are nonempty and in order; each says what was in force over its bytes, has a link that is
      there and, unless cut from preformatted text, holds collapsed text. Up to the end of the last
      one they leave out `gaps` bytes. */
  ghost predicate Tiled(runs: seq<Run>, pre: seq<bool>, text: Text, marks: seq<Mark>, links: nat, gaps: int) {
    && |pre| == |runs|
    && if runs == [] then gaps == 0
       else
         var init, last := runs[..|runs| - 1], runs[|runs| - 1];
         && RunsEnd(init) <= last.start < last.end <= |text|
         && Says(marks, last.start, last.end, last.style, last.link) && Known(last.link, links)
         && (!pre[|init|] ==> Collapsed(text, last.start, last.end))
         && Tiled(init, pre[..|init|], text, marks, links, gaps - (last.start - RunsEnd(init)))
  }

  lemma {:induction false} TiledStill(runs: seq<Run>, pre: seq<bool>, text: Text, marks: seq<Mark>, links: nat,
                                      gaps: int, moreText: Text, moreMarks: seq<Mark>, moreLinks: nat)
    requires text <= moreText && marks <= moreMarks && links <= moreLinks && Tiled(runs, pre, text, marks, links, gaps)
    ensures Tiled(runs, pre, moreText, moreMarks, moreLinks, gaps)
  {
    if runs != [] {
      var init, last := runs[..|runs| - 1], runs[|runs| - 1];
      if !pre[|init|] {
        CollapsedKept(text, moreText, last.start, last.end);
      }
      SaysStill(marks, last.start, last.end, last.style, last.link, moreMarks);
      TiledStill(init, pre[..|init|], text, marks, links, gaps - (last.start - RunsEnd(init)), moreText, moreMarks,
                 moreLinks);
    }
  }

  lemma RunAdded(runs: seq<Run>, pre: seq<bool>, text: Text, marks: seq<Mark>, links: nat, gaps: int, run: Run,
                 verbatim: bool, more: seq<Run>, morePre: seq<bool>)
    requires Tiled(runs, pre, text, marks, links, gaps) && RunsEnd(runs) <= run.start < run.end <= |text|
    requires Says(marks, run.start, run.end, run.style, run.link) && Known(run.link, links)
    requires !verbatim ==> Collapsed(text, run.start, run.end)
    requires Appended(runs, more, run) && Appended(pre, morePre, verbatim)
    ensures Tiled(more, morePre, text, marks, links, gaps + run.start - RunsEnd(runs)) && RunsEnd(more) == run.end
  {
  }

  lemma {:induction false} TiledExpands(runs: seq<Run>, pre: seq<bool>, text: Text, marks: seq<Mark>, links: nat,
                                        gaps: int)
    requires Tiled(runs, pre, text, marks, links, gaps)
    ensures 0 <= gaps && |Expand(runs)| == RunsEnd(runs) - gaps <= |marks| && RunsEnd(runs) <= |marks|
    ensures gaps == 0 ==> Expand(runs) == marks[..RunsEnd(runs)] && Contiguous(runs)
  {
    if runs != [] {
      var init, last := runs[..|runs| - 1], runs[|runs| - 1];
      TiledExpands(init, pre[..|init|], text, marks, links, gaps - (last.start - RunsEnd(init)));
      if gaps == 0 {
        forall i, j | 0 <= i && j == i + 1 < |runs|
          ensures runs[i].end == runs[j].start
        {
          assert j < |init| ==> init[i].end == init[j].start;
        }
        assert init != [] ==> runs[0] == init[0];
        forall k | last.start <= k < last.end
          ensures marks[k] == Mark(last.style, last.link)
        {
          SaysAt(marks, last.start, last.end, last.style, last.link, k);
        }
        assert marks[..last.end] == marks[..last.start] + Marks(last.end - last.start, last.style, last.link);
      }
    }
  }

  /** The runs follow one another without gaps, and give back exactly what was in force when each byte
      of the text was appended, if and only if no byte was lost. */
  lemma ExpandsExactlyWhenNothingLost(runs: seq<Run>, pre: seq<bool>, text: Text, marks: seq<Mark>, links: nat,
                                      lost: nat)
    requires Tiled(runs, pre, text, marks, links, lost - (|marks| - RunsEnd(runs)))
    ensures Expand(runs) == marks <==> lost == 0
    ensures lost == 0 ==> Contiguous(runs) && RunsEnd(runs) == |marks|
  {
    TiledExpands(runs, pre, text, marks, links, lost - (|marks| - RunsEnd(runs)));
    assert marks[..|marks|] == marks;
  }

  lemma {:induction false} TiledAt(runs: seq<Run>, pre: seq<bool>, text: Text, marks: seq<Mark>, links: nat, gaps: int,
                                   i: nat)
    requires Tiled(runs, pre, text, marks, links, gaps) && i < |runs|
    ensures Known(runs[i].link, links) && runs[i].start < runs[i].end <= |text|
            && (i == 0 || runs[i - 1].end <= runs[i].start)
    ensures !pre[i] ==> Collapsed(text, runs[i].start, runs[i].end)
  {
    var init := runs[..|runs| - 1];
    if i < |init| {
      TiledAt(init, pre[..|init|], text, marks, links, gaps - (runs[|init|].start - RunsEnd(init)), i);
    }
  }

  /** No run comes twice. */
  lemma {:induction false} TiledApart(runs: seq<Run>, pre: seq<bool>, text: Text, marks: seq<Mark>, links: nat,
                                      gaps: int)
    requires Tiled(runs, pre, text, marks, links, gaps)
    ensures forall i, j :: 0 <= i < j < |runs| ==> runs[i].end <= runs[j].start < runs[j].end
  {
    if runs != [] {
      var init, last := runs[..|runs| - 1], runs[|runs| - 1];
      TiledApart(init, pre[..|init|], text, marks, links, gaps - (last.start - RunsEnd(init)));
      forall i, j | 0 <= i < j < |runs|
        ensures runs[i].end <= runs[j].start < runs[j].end
      {
        assert j < |init| ==> init[i].end <= init[j].start < init[j].end;
        assert i < |init| - 1 ==> init[i].end <= init[|init| - 1].start < init[|init| - 1].end;
      }
    }
  }

  // --- the run being extended -----------------------------------------------------

  predicate Welcome(start: nat, text: Text, c: char) {
    start < |text| ==>
      && (c == ' ' ==> text[|text| - 1] != SPACE && text[|text| - 1] != NEWLINE)
      && (c == '\n' ==> text[|text| - 1] != SPACE)
  }

  /** An open run from `start` on says what was in force and, unless preformatted, is collapsed. */
  ghost predicate Growing(start: nat, verbatim: bool, text: Text, marks: seq<Mark>, style: Style, link: Option<nat>,
                          atBlockStart: bool) {
    && start <= |text| && Says(marks, start, |text|, style, link)
    && (!verbatim ==>
          Collapsed(text, start, |text|) && (start < |text| && text[|text| - 1] == NEWLINE ==> atBlockStart))
  }

  /** A character appended to an open run belongs to it, and to no closed one. */
  lemma OpenRunGrows(start: nat, verbatim: bool, text: Text, marks: seq<Mark>, style: Style, link: Option<nat>,
                     atBlockStart: bool, c: char, breaks: bool)
    requires |text| == |marks| && Growing(start, verbatim, text, marks, style, link, atBlockStart)
    requires !verbatim ==> Welcome(start, text, c) && (c == '\n' ==> breaks)
    ensures var more, moreMarks := text + Utf8(c), marks + Marks(|Utf8(c)|, style, link);
            && Growing(start, verbatim, more, moreMarks, style, link, breaks) && Grown(marks, moreMarks, style, link)
            && (c != ' ' ==> more[|more| - 1] != SPACE)
  {
    SaysMore(marks, start, |Utf8(c)|, style, link);
    if !verbatim {
      CollapsedGrows(text, start, c);
    }
  }

  // --- blocks -----------------------------------------------------------------

  /** Each block's slice of runs begins where the one before it ended, up to `end`. */
  ghost predicate SlicesTile(blocks: seq<Block>, end: nat) {
    if blocks == [] then end == 0
    else
      var last := blocks[|blocks| - 1];
      last.firstRun + last.runCount == end && SlicesTile(blocks[..|blocks| - 1], last.firstRun)
  }

  lemma SliceAdded(blocks: seq<Block>, block: Block, more: seq<Block>)
    requires SlicesTile(blocks, block.firstRun) && Appended(blocks, more, block)
    ensures SlicesTile(more, block.firstRun + block.runCount)
  {
  }

  function SaturatingSub(a: nat, b: nat): nat {
    if a < b then 0 else a - b
  }

  function SaturatingAdd32(n: nat): nat {
    if n + 1 > 0xFFFF_FFFF then n else n + 1
  }

  /** Nothing in it, so it never becomes a block, unless it is a rule or a control's. */
  predicate Hollow(block: Block) {
    block.runCount == 0 && block.controlCount == 0 && block.kind != Rule && !block.kind.Control?
  }

  /** The numbers of the runs in the blocks' slices, one slice after the other. */
  ghost function Filings(blocks: seq<Block>): seq<nat> {
    if blocks == [] then []
    else
      var last := blocks[|blocks| - 1];
      Filings(blocks[..|blocks| - 1]) + seq(last.runCount, k requires 0 <= k < last.runCount => last.firstRun + k)
  }

  /** The runs in the blocks' slices, one slice after the other. */
  ghost function SliceRuns(blocks: seq<Block>, runs: seq<Run>): seq<Run> {
    if blocks == [] then []
    else
      var last := blocks[|blocks| - 1];
      SliceRuns(blocks[..|blocks| - 1], runs)
      + if last.firstRun + last.runCount <= |runs| then runs[last.firstRun..last.firstRun + last.runCount] else []
  }

  ghost predicate Ascending(s: seq<nat>) {
    forall i, j :: 0 <= i < j < |s| ==> s[i] < s[j]
  }

  /** Slices lie within the runs. */
  ghost predicate Within(blocks: seq<Block>, count: nat) {
    forall i :: 0 <= i < |blocks| ==> blocks[i].firstRun + blocks[i].runCount <= count
  }

  /** Of the first `due` of `count` runs none was filed twice or never, unless `misfiled` says so; and then
      it shows: a number comes twice, or there are too few. */
  ghost predicate Filed(blocks: seq<Block>, count: nat, due: nat, misfiled: nat) {
    && Within(blocks, count)
    && if misfiled == 0 then SlicesTile(blocks, due) else (Ascending(Filings(blocks)) ==> |Filings(blocks)| < due)
  }

  lemma FilingsGrow(blocks: seq<Block>, block: Block, more: seq<Block>)
    requires Appended(blocks, more, block)
    ensures Filings(more)
              == Filings(blocks) + seq(block.runCount, k requires 0 <= k < block.runCount => block.firstRun + k)
    ensures block.runCount > 0 ==>
              Filings(more) != [] && Filings(more)[|Filings(more)| - 1] == block.firstRun + block.runCount - 1
    ensures Ascending(Filings(more)) ==> Ascending(Filings(blocks))
  {
    var was, now := Filings(blocks), Filings(more);
    assert more[..|blocks|] == blocks;
    assert forall i :: 0 <= i < |was| ==> now[i] == was[i];
  }

  /** A block that takes the runs from `due` on misfiles nothing. */
  lemma NextSliceFiled(blocks: seq<Block>, count: nat, due: nat, misfiled: nat, block: Block, more: seq<Block>)
    requires Filed(blocks, count, due, misfiled) && block.firstRun == due && due + block.runCount <= count
    requires Appended(blocks, more, block)
    ensures Filed(more, count, due + block.runCount, misfiled)
  {
    FilingsGrow(blocks, block, more);
    assert forall i :: 0 <= i < |blocks| ==> more[i] == blocks[i];
    if misfiled == 0 {
      SliceAdded(blocks, block, more);
    }
  }

  /** A block that takes runs the last one took already files them twice. */
  lemma SliceFiledTwice(blocks: seq<Block>, count: nat, misfiled: nat, block: Block, more: seq<Block>)
    requires Filed(blocks, count, count, misfiled) && block.firstRun < count && block.firstRun + block.runCount == count
    requires Filings(blocks) != [] && Filings(blocks)[|Filings(blocks)| - 1] == count - 1
    requires Appended(blocks, more, block)
    ensures Filed(more, count, count, misfiled + block.runCount)
  {
    FilingsGrow(blocks, block, more);
    assert forall i :: 0 <= i < |blocks| ==> more[i] == blocks[i];
    var was, now := Filings(blocks), Filings(more);
    assert now[|was| - 1] == count - 1 && now[|now| - 1] == count - 1;
  }

  lemma {:induction false} TilesCount(blocks: seq<Block>, end: nat)
    requires SlicesTile(blocks, end)
    ensures |Filings(blocks)| == end && forall i :: 0 <= i < end ==> Filings(blocks)[i] == i
  {
    if blocks != [] {
      TilesCount(blocks[..|blocks| - 1], blocks[|blocks| - 1].firstRun);
    }
  }

  /** Runs that no block is going to take are never filed. */
  lemma RunsPassedOver(blocks: seq<Block>, count: nat, due: nat, misfiled: nat)
    requires Filed(blocks, count, due, misfiled) && due < count
    ensures Filed(blocks, count, count, misfiled + (count - due))
  {
    if misfiled == 0 {
      TilesCount(blocks, due);
    }
  }

  lemma MoreRunsToFile(blocks: seq<Block>, count: nat, due: nat, misfiled: nat, more: nat)
    requires Filed(blocks, count, due, misfiled) && count <= more
    ensures Filed(blocks, more, due, misfiled)
  {
  }

  lemma {:induction false} SlicesAreFilings(blocks: seq<Block>, runs: seq<Run>)
    requires Within(blocks, |runs|)
    ensures |SliceRuns(blocks, runs)| == |Filings(blocks)|
    ensures forall i :: 0 <= i < |Filings(blocks)| ==>
              Filings(blocks)[i] < |runs| && SliceRuns(blocks, runs)[i] == runs[Filings(blocks)[i]]
  {
    if blocks != [] {
      var init, last := blocks[..|blocks| - 1], blocks[|blocks| - 1];
      assert forall i :: 0 <= i < |init| ==> init[i] == blocks[i];
      SlicesAreFilings(init, runs);
    }
  }

  /** Taking the blocks' slices one after the other gives the runs, if and only if no run was misfiled. */
  lemma SlicesPartitionRuns(blocks: seq<Block>, runs: seq<Run>, misfiled: nat)
    requires Filed(blocks, |runs|, |runs|, misfiled)
    requires forall i, j :: 0 <= i < j < |runs| ==> runs[i] != runs[j]
    ensures SliceRuns(blocks, runs) == runs <==> misfiled == 0
  {
    SlicesAreFilings(blocks, runs);
    if misfiled == 0 {
      TilesCount(blocks, |runs|);
    } else if SliceRuns(blocks, runs) == runs {
      FiledInPlace(blocks, runs);
    }
  }

  lemma FiledInPlace(blocks: seq<Block>, runs: seq<Run>)
    requires Within(blocks, |runs|) && SliceRuns(blocks, runs) == runs
    requires forall i, j :: 0 <= i < j < |runs| ==> runs[i] != runs[j]
    ensures |Filings(blocks)| == |runs| && forall i :: 0 <= i < |runs| ==> Filings(blocks)[i] == i
  {
    SlicesAreFilings(blocks, runs);
    forall i | 0 <= i < |runs|
      ensures Filings(blocks)[i] == i
    {
      assert runs[Filings(blocks)[i]] == SliceRuns(blocks, runs)[i] == runs[i];
    }
  }
}
