/**
The CW-rotated framebuffer of src/framebuffer.rs: rectangle fills and upward
scrolls that a DMA engine may do in place of the CPU, and must do to the same
effect through the cache.
*/
module Framebuffer {
  import opened Coherence
  import opened Raster
  import opened Basics

  const WIDTH := NATIVE_HEIGHT
  const HEIGHT := NATIVE_WIDTH
  const PPA_FILL_MIN_PIXELS := 768
  const WRITEBACK_CHUNK_BYTES := 65536

  /** Where a landscape pixel lives in the portrait scan layout, and back. */
  function NativeOffset(x: nat, y: nat): (p: nat)
    requires x < WIDTH && y < HEIGHT
    ensures p < PIXELS
  {
    (NATIVE_HEIGHT - 1 - x) * NATIVE_WIDTH + y
  }

  function X(p: nat): int {
    NATIVE_HEIGHT - 1 - p / NATIVE_WIDTH
  }

  function Y(p: nat): int {
    p % NATIVE_WIDTH
  }

  /** The rotation is a bijection between the screen and the buffer. */
  lemma RotationIsABijection(x: nat, y: nat, p: nat)
    requires x < WIDTH && y < HEIGHT && p < PIXELS
    ensures NativeOffset(x, y) == p <==> X(p) == x && Y(p) == y
    ensures 0 <= X(p) < WIDTH && 0 <= Y(p) < HEIGHT
  {
  }

  /** The screen is the panel turned clockwise by a quarter: its top left corner is the start of the panel's last
      row, a step to the right is one panel row up, and a step down is one pixel on in the same row. */
  lemma QuarterTurn(x: nat, y: nat)
    requires x < WIDTH && y < HEIGHT
    ensures NativeOffset(0, 0) == (NATIVE_HEIGHT - 1) * NATIVE_WIDTH
    ensures x + 1 < WIDTH ==> NativeOffset(x + 1, y) + NATIVE_WIDTH == NativeOffset(x, y)
    ensures y + 1 < HEIGHT ==>
              NativeOffset(x, y + 1) == NativeOffset(x, y) + 1
              && NativeOffset(x, y + 1) / NATIVE_WIDTH == NativeOffset(x, y) / NATIVE_WIDTH
  {
  }

  /** The engine's `fill` and the CPU's agree on every picture exactly when the vertical clip is the whole
      screen: otherwise there is a pixel that only the CPU's reaches. */
  lemma FillPathsAgree(clipTop: nat, clipBottom: nat)
    requires clipTop <= clipBottom <= HEIGHT
    ensures (forall p: nat :: p < PIXELS ==> Inside(p, 0, clipTop, WIDTH, clipBottom))
              <==> clipTop == 0 && clipBottom == HEIGHT
  {
    var missed := if clipTop > 0 then 0 else HEIGHT - 1;
    RotationIsABijection(0, missed, NativeOffset(0, missed));
    forall p: nat | p < PIXELS
      ensures 0 <= X(p) < WIDTH && 0 <= Y(p) < HEIGHT
    {
      RotationIsABijection(0, 0, p);
    }
    if clipTop > 0 || clipBottom < HEIGHT {
      assert !Inside(NativeOffset(0, missed), 0, clipTop, WIDTH, clipBottom);
    }
  }

  predicate Inside(p: nat, left: nat, top: nat, right: nat, bottom: nat) {
    left <= X(p) < right && top <= Y(p) < bottom
  }

  /** Native pixels of one block row after another, the order the 2D-DMA walks a block in. */
  function Walk(x: nat, y: nat, width: nat, height: nat): (walk: seq<nat>) {
    if height == 0 then []
    else Walk(x, y, width, height - 1)
         + seq(width, i requires 0 <= i < width => (y + height - 1) * NATIVE_WIDTH + x + i)
  }

  predicate InBlock(p: nat, x: nat, y: nat, width: nat, height: nat) {
    y <= p / NATIVE_WIDTH < y + height && x <= p % NATIVE_WIDTH < x + width
  }

  /** The walk visits exactly the block, in increasing address order. */
  lemma {:induction false} WalkCoversBlock(x: nat, y: nat, width: nat, height: nat)
    requires x + width <= NATIVE_WIDTH
    ensures var walk := Walk(x, y, width, height);
            && (forall p: nat :: p in walk <==> InBlock(p, x, y, width, height))
            && Ascending(walk)
  {
    if height > 0 {
      WalkCoversBlock(x, y, width, height - 1);
      var before, walk := Walk(x, y, width, height - 1), Walk(x, y, width, height);
      var start := (y + height - 1) * NATIVE_WIDTH + x;
      var row := seq(width, i requires 0 <= i < width => start + i);
      assert walk == before + row;
      forall p: nat
        ensures p in walk <==> InBlock(p, x, y, width, height)
      {
        BlockGrows(p, x, y, width, height);
        if start <= p < start + width {
          assert row[p - start] == p;
        }
      }
      forall j | 0 <= j < |before|
        ensures before[j] < start
      {
        assert before[j] in before;
        BlockGrows(before[j], x, y, width, height);
      }
      AscendingOn(before, row, start);
    }
  }

  predicate Ascending(walk: seq<nat>) {
    forall j, k :: 0 <= j < k < |walk| ==> walk[j] < walk[k]
  }

  lemma AscendingOn(before: seq<nat>, row: seq<nat>, start: nat)
    requires Ascending(before) && Ascending(row)
    requires forall j :: 0 <= j < |before| ==> before[j] < start
    requires forall k :: 0 <= k < |row| ==> start <= row[k]
    ensures Ascending(before + row)
  {
  }

  /** A block is the block one row shorter and its last row, which lies after it. */
  lemma BlockGrows(p: nat, x: nat, y: nat, width: nat, height: nat)
    requires x + width <= NATIVE_WIDTH && height > 0
    ensures var start := (y + height - 1) * NATIVE_WIDTH + x;
            && (InBlock(p, x, y, width, height) <==> InBlock(p, x, y, width, height - 1) || start <= p < start + width)
            && (InBlock(p, x, y, width, height - 1) ==> p < start)
  {
  }

  /** Two blocks of one size in the same rows are walked in step. */
  lemma {:induction false} WalksKeepStep(x: nat, distance: nat, y: nat, width: nat, height: nat)
    ensures var near, far := Walk(x, y, width, height), Walk(x + distance, y, width, height);
            |near| == |far| && forall k :: 0 <= k < |near| ==> far[k] == near[k] + distance
  {
    if height > 0 {
      WalksKeepStep(x, distance, y, width, height - 1);
    }
  }

  /** What a copy by `distance` to lower addresses visits. */
  lemma CopyWalks(x: nat, distance: nat, width: nat, height: nat)
    requires x + distance + width <= NATIVE_WIDTH && height <= NATIVE_HEIGHT
    ensures var sources, targets := Walk(x + distance, 0, width, height), Walk(x, 0, width, height);
            && |sources| == |targets|
            && (forall k :: 0 <= k < |targets| ==>
                  targets[k] < PIXELS && InBlock(targets[k], x, 0, distance + width, height))
            && (forall k :: 0 <= k < |targets| ==>
                  sources[k] < PIXELS && InBlock(sources[k], x, 0, distance + width, height))
            && (forall k :: 0 <= k < |targets| ==> sources[k] == targets[k] + distance)
            && (forall p: nat :: p in targets <==> InBlock(p, x, 0, width, height))
  {
    WalkCoversBlock(x, 0, width, height);
    WalkCoversBlock(x + distance, 0, width, height);
    WalksKeepStep(x, distance, 0, width, height);
    var sources, targets := Walk(x + distance, 0, width, height), Walk(x, 0, width, height);
    forall k | 0 <= k < |targets|
      ensures InBlock(targets[k], x, 0, width, height) && InBlock(sources[k], x + distance, 0, width, height)
    {
      assert targets[k] in targets && sources[k] in sources;
    }
  }

  /** The pixels read but not yet written. */
  ghost predicate Queued(queue: seq<Color>, wanted: seq<Color>, written: nat, read: nat) {
    written <= read <= |wanted| && queue == wanted[written..read]
  }

  lemma QueueMoves(queue: seq<Color>, wanted: seq<Color>, written: nat, read: nat)
    requires Queued(queue, wanted, written, read)
    ensures read < |wanted| ==> Queued(queue + [wanted[read]], wanted, written, read + 1)
    ensures written < read ==> queue[0] == wanted[written] && Queued(queue[1..], wanted, written + 1, read)
  {
  }

  /** The point's image in the first octant is one of the columns visited, one a row. */
  predicate OnOctant(columns: seq<int>, dx: nat, dy: nat) {
    Min(dx, dy) < |columns| && columns[Min(dx, dy)] == Max(dx, dy)
  }

  lemma OctantGrows(columns: seq<int>, x: int)
    ensures forall dx: nat, dy: nat :: OnOctant(columns + [x], dx, dy) <==>
              OnOctant(columns, dx, dy) || (Min(dx, dy) == |columns| && Max(dx, dy) == x)
  {
  }

  class Framebuffer {
    const memory: Memory
    var clipLeft: nat
    var clipRight: nat
    var clipTop: nat
    var clipBottom: nat
    /** How often an engine refused, or stopped before it was done. */
    ghost var stops: nat

    ghost predicate Valid()
      reads this, memory.psram, memory.cached, memory.lines
    {
      && memory.Valid() && memory.AllFresh()
      && clipLeft <= clipRight <= WIDTH && clipTop <= clipBottom <= HEIGHT
    }

    /** The picture changed inside one rectangle only, and to one color. */
    twostate predicate Filled(left: nat, top: nat, right: nat, bottom: nat, color: Color)
      requires memory.Valid()
      reads memory.psram, memory.cached, memory.lines
    {
      forall p :: 0 <= p < PIXELS ==>
        memory.Home(p) == if Inside(p, left, top, right, bottom) then color else old(memory.Home(p))
    }

    /** The same in the panel's own rows and columns: screen columns are panel rows, counted from the far end. */
    twostate predicate FilledOnPanel(left: nat, top: nat, right: nat, bottom: nat, color: Color)
      requires memory.Valid()
      reads memory.psram, memory.cached, memory.lines
    {
      forall p :: 0 <= p < PIXELS ==>
        memory.Home(p) ==
        if NATIVE_HEIGHT - right <= p / NATIVE_WIDTH < NATIVE_HEIGHT - left && top <= p % NATIVE_WIDTH < bottom
        then color else old(memory.Home(p))
    }

    constructor (memory: Memory)
      requires memory.Valid() && memory.AllFresh()
      ensures Valid() && this.memory == memory
      ensures clipLeft == clipTop == 0 && clipRight == WIDTH && clipBottom == HEIGHT
    {
      this.memory := memory;
      clipLeft, clipRight, clipTop, clipBottom := 0, WIDTH, 0, HEIGHT;
    }

    method SetVerticalClip(top: nat, bottom: nat) returns (oldTop: nat, oldBottom: nat)
      requires Valid()
      modifies this`clipTop, this`clipBottom
      ensures Valid() && oldTop == old(clipTop) && oldBottom == old(clipBottom)
      ensures clipTop == Min(top, HEIGHT) && clipBottom == Max(Min(bottom, HEIGHT), clipTop)
    {
      oldTop, oldBottom := clipTop, clipBottom;
      clipTop := Min(top, HEIGHT);
      clipBottom := Max(Min(bottom, HEIGHT), clipTop);
    }

    /** Writes back and drops the native span covering a rectangle, a chunk at a time. */
    method FlushRect(x: nat, y: nat, width: nat, height: nat) returns (done: bool)
      requires memory.Valid()
      modifies memory.psram, memory.cached, memory.lines, memory`refusals
      ensures memory.Undisturbed()
      ensures memory.refusals == old(memory.refusals)
              + if done || x >= WIDTH || y >= HEIGHT || width == 0 || height == 0 then 0 else 1
      ensures done <==> x < WIDTH && y < HEIGHT && width > 0 && height > 0 && memory.refusals == old(memory.refusals)
      ensures done ==> forall p :: 0 <= p < PIXELS && Inside(p, x, y, x + width, y + height) ==>
                memory.Fresh(p) && !memory.Owned(p)
    {
      var xStart, yStart := Min(x, WIDTH), Min(y, HEIGHT);
      var xEnd, yEnd := Min(x + width, WIDTH), Min(y + height, HEIGHT);
      if xStart == xEnd || yStart == yEnd {
        return false;
      }
      var firstPixel := (NATIVE_HEIGHT - xEnd) * NATIVE_WIDTH + yStart;
      var endPixel := (NATIVE_HEIGHT - 1 - xStart) * NATIVE_WIDTH + yEnd;
      var offset := firstPixel * BYTES_PER_PIXEL;
      var end := endPixel * BYTES_PER_PIXEL;
      while offset < end
        invariant firstPixel * BYTES_PER_PIXEL <= offset <= end && offset % BYTES_PER_PIXEL == 0
        invariant memory.Undisturbed() && memory.refusals == old(memory.refusals)
        invariant forall p :: 0 <= p < PIXELS && firstPixel <= p && p * BYTES_PER_PIXEL < offset ==>
                    memory.Fresh(p) && !memory.Owned(p)
      {
        var bytes := Min(WRITEBACK_CHUNK_BYTES, end - offset);
        var written := memory.WritebackRange(offset, bytes);
        if !written {
          return false;
        }
        offset := offset + bytes;
      }
      forall p | 0 <= p < PIXELS && Inside(p, x, y, x + width, y + height)
        ensures memory.Fresh(p) && !memory.Owned(p)
      {
        assert firstPixel <= p < endPixel;
      }
      done := true;
    }

    // --- fills ------------------------------------------------------------------

    /** Every pixel of the rectangle, stored by the CPU in native order. */
    method FillRectWithCpu(x: nat, y: nat, width: nat, height: nat, color: Color) returns (filled: bool)
      requires memory.Valid()
      modifies memory.psram, memory.cached, memory.lines
      ensures old(memory.AllFresh()) ==> memory.AllFresh() && Filled(x, y, x + width, y + height, color)
    {
      var xEnd, yEnd := Min(x + width, WIDTH), Min(y + height, HEIGHT);
      forall p | 0 <= p < PIXELS
        ensures Inside(p, x, y, x + width, y + height) <==> Inside(p, x, y, xEnd, yEnd)
      {
        RotationIsABijection(0, 0, p);
      }
      if Min(x, WIDTH) >= xEnd || Min(y, HEIGHT) >= yEnd {
        return false;
      }
      var column := xEnd;
      while column > x
        invariant x <= column <= xEnd
        invariant old(memory.AllFresh()) ==> memory.AllFresh() && Filled(column, y, xEnd, yEnd, color)
      {
        column := column - 1;
        for row := y to yEnd
          invariant old(memory.AllFresh()) ==> memory.AllFresh()
          invariant old(memory.AllFresh()) ==> forall p :: 0 <= p < PIXELS ==>
                      memory.Home(p) ==
                      if Inside(p, column + 1, y, xEnd, yEnd) || Inside(p, column, y, column + 1, row)
                      then color else old(memory.Home(p))
        {
          forall p | 0 <= p < PIXELS
            ensures p == NativeOffset(column, row) <==> X(p) == column && Y(p) == row
          {
            RotationIsABijection(column, row, p);
          }
          memory.Store(NativeOffset(column, row), color);
        }
      }
      filled := true;
    }

    /** The engine's fill of a block of native rows. It may refuse or stop anywhere; the cache goes
        on loading and evicting lines around it. */
    method PpaFillRectRaw(x: nat, y: nat, width: nat, height: nat, color: Color) returns (filled: bool)
      requires memory.Valid() && x + width <= WIDTH && y + height <= HEIGHT
      requires forall p :: 0 <= p < PIXELS && Inside(p, x, y, x + width, y + height) ==> !memory.Owned(p)
      modifies memory.psram, memory.cached, memory.lines, this`stops
      ensures stops == old(stops) + if filled then 0 else 1
      ensures forall p :: 0 <= p < PIXELS && memory.Owned(p) ==> old(memory.Owned(p))
      ensures forall p :: 0 <= p < PIXELS && !Inside(p, x, y, x + width, y + height) ==>
                memory.Home(p) == old(memory.Home(p)) && (old(memory.Fresh(p)) ==> memory.Fresh(p))
      ensures filled ==> Filled(x, y, x + width, y + height, color)
    {
      var blockX, blockY := y, NATIVE_HEIGHT - x - width;
      filled := true;
      for row := blockY to blockY + width
        invariant stops == old(stops)
        invariant forall p :: 0 <= p < PIXELS && memory.Owned(p) ==> old(memory.Owned(p))
        invariant forall p :: 0 <= p < PIXELS && !Inside(p, x, y, x + width, y + height) ==>
                    memory.Home(p) == old(memory.Home(p)) && (old(memory.Fresh(p)) ==> memory.Fresh(p))
        invariant filled ==>
                    forall p :: 0 <= p < PIXELS && Inside(p, x, y, x + width, y + height) && p / NATIVE_WIDTH < row ==>
                    memory.Home(p) == color
      {
        for column := blockX to blockX + height
          invariant stops == old(stops)
          invariant forall p :: 0 <= p < PIXELS && memory.Owned(p) ==> old(memory.Owned(p))
          invariant forall p :: 0 <= p < PIXELS && !Inside(p, x, y, x + width, y + height) ==>
                      memory.Home(p) == old(memory.Home(p)) && (old(memory.Fresh(p)) ==> memory.Fresh(p))
          invariant filled ==>
                      forall p ::
                        0 <= p < PIXELS && p < row * NATIVE_WIDTH + column && Inside(p, x, y, x + width, y + height) ==>
                          memory.Home(p) == color
        {
          memory.Ambient();
          var stop: bool := *;
          if stop {
            stops := stops + 1;
            return false;
          }
          assert Inside(row * NATIVE_WIDTH + column, x, y, x + width, y + height);
          memory.DmaWrite(row * NATIVE_WIDTH + column, color);
        }
      }
      memory.Ambient();
    }

    /** The engine's fill bracketed by cache passes. When the first is refused the engine never starts; only
        the second may be refused unnoticed. `passes` says which were made and how each went. */
    method PpaFillRect(x: nat, y: nat, width: nat, height: nat, color: Color)
      returns (filled: bool, ghost passes: seq<bool>)
      requires Valid()
      modifies memory.psram, memory.cached, memory.lines, memory`refusals, this`stops
      ensures passes in {[], [false], [true, false], [true, true]}
      ensures memory.refusals == old(memory.refusals) + if false in passes then 1 else 0
      ensures stops == old(stops) + if |passes| == 2 && !filled then 1 else 0
      ensures passes == [] <==>
                x >= WIDTH || width == 0 || Max(y, clipTop) >= HEIGHT || Min(y + height, clipBottom) <= Max(y, clipTop)
      ensures (passes != [true, false] ==> Valid()) && (filled <==> |passes| == 2 && stops == old(stops))
      ensures forall p :: 0 <= p < PIXELS && !Inside(p, x, Max(y, clipTop), x + width, Min(y + height, clipBottom)) ==>
                memory.Home(p) == old(memory.Home(p))
      ensures filled ==> Filled(x, Max(y, clipTop), x + width, Min(y + height, clipBottom), color)
    {
      var xStart, yStart := Min(x, WIDTH), Min(Max(y, clipTop), HEIGHT);
      var xEnd, yEnd := Min(x + width, WIDTH), Min(Min(y + height, clipBottom), HEIGHT);
      if xStart >= xEnd || yStart >= yEnd {
        return false, [];
      }
      var width', height' := xEnd - xStart, yEnd - yStart;
      forall p | 0 <= p < PIXELS
        ensures Inside(p, xStart, yStart, xEnd, yEnd) <==>
                Inside(p, x, Max(y, clipTop), x + width, Min(y + height, clipBottom))
      {
        RotationIsABijection(0, 0, p);
      }
      var flushed := FlushRect(xStart, yStart, width', height');
      if !flushed {
        return false, [false];
      }
      filled := PpaFillRectRaw(xStart, yStart, width', height', color);
      var again := FlushRect(xStart, yStart, width', height');
      passes := [true, again];
    }

    /** A rectangle clipped to the drawing area, by DMA when it is large enough and the engine is
        willing, by the CPU otherwise. However the fill was done, and wherever the engine gave up,
        the picture is the old one with the clipped rectangle in `color`, unless the cache pass after
        the engine's run was refused. */
    method FillRect(x: nat, y: nat, width: nat, height: nat, color: Color) returns (ghost passes: seq<bool>)
      requires Valid()
      modifies memory.psram, memory.cached, memory.lines, memory`refusals, this`stops
      ensures var left, top := Max(x, clipLeft), Max(y, clipTop);
              var right, bottom := Min(x + width, clipRight), Min(y + height, clipBottom);
              && (Max(right - left, 0) * Max(bottom - top, 0) < PPA_FILL_MIN_PIXELS ==> passes == [])
              && (passes != [true, false] ==> Valid() && Filled(left, top, right, bottom, color))
      ensures passes != [true, false] ==>
                FilledOnPanel(Max(x, clipLeft), Max(y, clipTop),
                              Min(x + width, clipRight), Min(y + height, clipBottom), color)
      ensures memory.refusals == old(memory.refusals) + if false in passes then 1 else 0
    {
      var left, right := Max(x, clipLeft), Min(x + width, clipRight);
      var top, bottom := Max(y, clipTop), Min(y + height, clipBottom);
      var width', height' := Max(right - left, 0), Max(bottom - top, 0);
      assert forall p :: Inside(p, left, top, left + width', top + height') <==> Inside(p, left, top, right, bottom);
      passes := [];
      var filled := false;
      if width' * height' >= PPA_FILL_MIN_PIXELS {
        filled, passes := PpaFillRect(left, top, width', height', color);
      }
      if !filled {
        var _ := FillRectWithCpu(left, top, width', height', color);
      }
    }

    /** Clears the screen. The CPU path ignores the clip; the engine's path stops at the vertical one. */
    method Fill(color: Color) returns (ghost byEngine: bool, ghost passes: seq<bool>)
      requires Valid()
      modifies memory.psram, memory.cached, memory.lines, memory`refusals, this`stops
      ensures memory.refusals == old(memory.refusals) + if false in passes then 1 else 0
      ensures byEngine <==> |passes| == 2 && stops == old(stops)
      ensures passes != [true, false] ==>
                && Valid()
                && (if byEngine then Filled(0, clipTop, WIDTH, clipBottom, color)
                    else Filled(0, 0, WIDTH, HEIGHT, color))
                && ((forall p :: 0 <= p < PIXELS ==> memory.Home(p) == color) <==>
                      !byEngine || forall p :: 0 <= p < PIXELS && !Inside(p, 0, clipTop, WIDTH, clipBottom) ==>
                        old(memory.Home(p)) == color)
    {
      forall p | 0 <= p < PIXELS
        ensures Inside(p, 0, 0, WIDTH, HEIGHT)
      {
        RotationIsABijection(0, 0, p);
      }
      var filled;
      filled, passes := PpaFillRect(0, 0, WIDTH, HEIGHT, color);
      byEngine := filled;
      if filled {
        return;
      }
      for p := 0 to PIXELS
        invariant byEngine <==> |passes| == 2 && stops == old(stops)
        invariant memory.refusals == old(memory.refusals) + if false in passes then 1 else 0
        invariant passes != [true, false] ==> memory.AllFresh() && forall q :: 0 <= q < p ==> memory.Home(q) == color
      {
        memory.Store(p, color);
      }
    }

    // --- scrolling ----------------------------------------------------------------

    /** The writer's next step. Its target lies below every source not yet read, and is new. */
    method WriteNext(x: nat, distance: nat, width: nat, height: nat, written: nat, ghost read: nat,
                     ghost wanted: seq<Color>, color: Color)
      requires memory.Valid() && distance > 0 && x + distance + width <= NATIVE_WIDTH && height <= NATIVE_HEIGHT
      requires var sources, targets := Walk(x + distance, 0, width, height), Walk(x, 0, width, height);
               && written < read <= |targets| == |sources| == |wanted| && color == wanted[written]
               && (forall k :: 0 <= k < |targets| ==> targets[k] < PIXELS && sources[k] < PIXELS)
               && !memory.Owned(targets[written])
               && (forall k :: read <= k < |targets| ==> memory.Home(sources[k]) == wanted[k])
               && (forall k :: 0 <= k < written ==> memory.Home(targets[k]) == wanted[k])
      modifies memory.psram
      ensures var sources, targets := Walk(x + distance, 0, width, height), Walk(x, 0, width, height);
              && (forall k :: read <= k < |targets| ==> memory.Home(sources[k]) == wanted[k])
              && (forall k :: 0 <= k < written + 1 ==> memory.Home(targets[k]) == wanted[k])
              && (forall p :: 0 <= p < PIXELS && p !in targets ==>
                   memory.Home(p) == old(memory.Home(p)) && (old(memory.Fresh(p)) ==> memory.Fresh(p)))
    {
      ghost var sources, targets := Walk(x + distance, 0, width, height), Walk(x, 0, width, height);
      WalkCoversBlock(x, 0, width, height);
      WalksKeepStep(x, distance, 0, width, height);
      assert forall k :: read <= k < |targets| ==> targets[written] < targets[k] < sources[k];
      assert forall k :: 0 <= k < written ==> targets[k] < targets[written];
      assert targets[written] in targets;
      memory.DmaWrite(Walk(x, 0, width, height)[written], color);
    }

    /** The engine's run. It reads and writes in the same order; the writer trails by as much as it
        likes, a queue in between, and the cache is busy throughout. */
    method Transfer(x: nat, distance: nat, width: nat, height: nat, ghost wanted: seq<Color>) returns (copied: bool)
      requires memory.Valid() && distance > 0 && x + distance + width <= NATIVE_WIDTH && height <= NATIVE_HEIGHT
      requires var sources, targets := Walk(x + distance, 0, width, height), Walk(x, 0, width, height);
               && |sources| == |targets| == |wanted|
               && (forall k :: 0 <= k < |targets| ==> targets[k] < PIXELS && !memory.Owned(targets[k]))
               && (forall k :: 0 <= k < |targets| ==>
                    sources[k] < PIXELS && !memory.Owned(sources[k]) && memory.Home(sources[k]) == wanted[k])
      modifies memory.psram, memory.cached, memory.lines, this`stops
      ensures stops == old(stops) + if copied then 0 else 1
      ensures forall p :: 0 <= p < PIXELS && memory.Owned(p) ==> old(memory.Owned(p))
      ensures var targets := Walk(x, 0, width, height);
              && (forall p :: 0 <= p < PIXELS && p !in targets ==>
                   memory.Home(p) == old(memory.Home(p)) && (old(memory.Fresh(p)) ==> memory.Fresh(p)))
              && (copied ==> forall k :: 0 <= k < |targets| ==> memory.Home(targets[k]) == wanted[k])
    {
      var sources, targets := Walk(x + distance, 0, width, height), Walk(x, 0, width, height);
      var read: nat, written: nat, queue: seq<Color> := 0, 0, [];
      while written < |targets|
        invariant stops == old(stops)
        invariant written <= read <= |targets| && |queue| == read - written
        invariant Queued(queue, wanted, written, read)
        invariant forall p :: 0 <= p < PIXELS && memory.Owned(p) ==> old(memory.Owned(p))
        invariant forall p :: 0 <= p < PIXELS && p !in targets ==>
                    memory.Home(p) == old(memory.Home(p)) && (old(memory.Fresh(p)) ==> memory.Fresh(p))
        invariant forall k :: read <= k < |targets| ==> memory.Home(sources[k]) == wanted[k]
        invariant forall k :: 0 <= k < written ==> memory.Home(targets[k]) == wanted[k]
        decreases |targets| - written, |targets| - read
      {
        memory.Ambient();
        var stop: bool, reading: bool := *, *;
        if stop {
          stops := stops + 1;
          return false;
        }
        QueueMoves(queue, wanted, written, read);
        if read < |targets| && (reading || read == written) {
          var pixel := memory.DmaRead(sources[read]);
          queue := queue + [pixel];
          read := read + 1;
        } else {
          WriteNext(x, distance, width, height, written, read, wanted, queue[0]);
          queue := queue[1..];
          written := written + 1;
        }
      }
      copied := true;
    }

    /** What memory holds at these places. */
    ghost function Colors(at: seq<nat>): (colors: seq<Color>)
      requires memory.Valid() && forall k :: 0 <= k < |at| ==> at[k] < PIXELS
      reads this, memory, memory.psram, memory.cached, memory.lines
      ensures |colors| == |at| && forall k :: 0 <= k < |at| ==> colors[k] == memory.Home(at[k])
    {
      if at == [] then [] else Colors(at[..|at| - 1]) + [memory.Home(at[|at| - 1])]
    }

    /** The 2D-DMA's memory-to-memory copy between two blocks of the same native rows, the target
        `distance` pixels below the source and overlapping it as it may. */
    method CopyBlockDown(x: nat, distance: nat, width: nat, height: nat) returns (copied: bool)
      requires memory.Valid() && distance > 0 && x + distance + width <= NATIVE_WIDTH && height <= NATIVE_HEIGHT
      requires forall p :: 0 <= p < PIXELS && InBlock(p, x, 0, distance + width, height) ==> !memory.Owned(p)
      modifies memory.psram, memory.cached, memory.lines, this`stops
      ensures stops == old(stops) + if copied then 0 else 1
      ensures forall p :: 0 <= p < PIXELS && memory.Owned(p) ==> old(memory.Owned(p))
      ensures forall p :: 0 <= p < PIXELS && !InBlock(p, x, 0, width, height) ==>
                memory.Home(p) == old(memory.Home(p)) && (old(memory.Fresh(p)) ==> memory.Fresh(p))
      ensures copied ==> forall p :: 0 <= p < PIXELS && InBlock(p, x, 0, width, height) ==>
                memory.Home(p) == old(memory.Home(p + distance))
    {
      ghost var sources, targets := Walk(x + distance, 0, width, height), Walk(x, 0, width, height);
      CopyWalks(x, distance, width, height);
      copied := Transfer(x, distance, width, height, Colors(sources));
      forall p | copied && 0 <= p < PIXELS && InBlock(p, x, 0, width, height)
        ensures memory.Home(p) == old(memory.Home(p + distance))
      {
        assert p in targets;
      }
    }

    /** Moves a band of the screen up. What was `distance` rows lower is now here, the bottom of the
        band keeps its old contents, and nothing outside the band is touched; a failed transfer may
        leave anything in the rows it was to fill, and nothing else. It fails exactly when there is nothing
        to move, the cache pass before it is refused, or the engine stops. */
    method ScrollUp(top: nat, height: nat, distance: nat) returns (moved: bool, ghost passes: seq<bool>)
      requires Valid()
      modifies memory.psram, memory.cached, memory.lines, memory`refusals, this`stops
      ensures passes in {[], [false], [true, false], [true, true]}
      ensures memory.refusals == old(memory.refusals) + if false in passes then 1 else 0
      ensures stops == old(stops) + if |passes| == 2 && !moved then 1 else 0
      ensures passes == [] <==> distance == 0 || top + distance >= Min(top + height, HEIGHT)
      ensures passes != [true, false] ==> Valid()
      ensures moved <==> |passes| == 2 && stops == old(stops)
      ensures forall p :: 0 <= p < PIXELS && !(top <= Y(p) < Min(top + height, HEIGHT) - distance) ==>
                memory.Home(p) == old(memory.Home(p))
      ensures moved ==> forall p :: 0 <= p < PIXELS && top <= Y(p) < Min(top + height, HEIGHT) - distance ==>
                memory.Home(p) == old(memory.Home(p + distance))
    {
      var bottom := Min(top + height, HEIGHT);
      if distance == 0 || top >= bottom || distance >= bottom - top {
        return false, [];
      }
      var rows := bottom - top - distance;
      forall p | 0 <= p < PIXELS
        ensures top <= Y(p) < bottom <==> Inside(p, 0, top, WIDTH, top + height)
      {
        RotationIsABijection(0, 0, p);
      }
      var flushed := FlushRect(0, top, WIDTH, height);
      if !flushed {
        return false, [false];
      }
      moved := CopyBlockDown(top, distance, rows, NATIVE_HEIGHT);
      var again := FlushRect(0, top, WIDTH, height);
      passes := [true, again];
    }

    // --- lines and circles --------------------------------------------------------

    ghost predicate InClip(p: nat)
      reads this
    {
      Inside(p, clipLeft, clipTop, clipRight, clipBottom)
    }

    method DrawPixel(x: nat, y: nat, color: Color)
      requires Valid()
      modifies memory.psram, memory.cached, memory.lines
      ensures Valid()
      ensures forall p :: 0 <= p < PIXELS ==>
                memory.Home(p) == if InClip(p) && X(p) == x && Y(p) == y then color else old(memory.Home(p))
    {
      if x < clipLeft || x >= clipRight || y < clipTop || y >= clipBottom {
        return;
      }
      forall p | 0 <= p < PIXELS
        ensures p == NativeOffset(x, y) <==> X(p) == x && Y(p) == y
      {
        RotationIsABijection(x, y, p);
      }
      memory.Store(NativeOffset(x, y), color);
    }

    /** Bresenham's loop between two ends; `run` and `errors` are the run it makes. */
    method TraceLine(x0: nat, y0: nat, endX: nat, endY: nat, color: Color, ghost run: seq<Point>,
                     ghost errors: seq<int>)
      requires Valid() && IsRun(run, errors, Point(x0, y0), Point(endX, endY))
      modifies memory.psram, memory.cached, memory.lines
      ensures Valid()
      ensures forall p :: 0 <= p < PIXELS ==>
                memory.Home(p) == if InClip(p) && Point(X(p), Y(p)) in run then color else old(memory.Home(p))
    {
      var x, y := x0 as int, y0 as int;
      var dx: int, dy: int := Abs(endX - x), -(Abs(endY - y) as int);
      var sx, sy := if x < endX then 1 else -1, if y < endY then 1 else -1;
      var error := dx + dy;
      ghost var k: nat := 0;
      while true
        invariant Valid() && k < |run| && Point(x, y) == run[k] && error == errors[k]
        invariant forall p :: 0 <= p < PIXELS ==>
                    memory.Home(p) == if InClip(p) && Point(X(p), Y(p)) in run[..k] then color else old(memory.Home(p))
        decreases |run| - k
      {
        if x >= 0 && y >= 0 {
          DrawPixel(x, y, color);
        }
        assert run[..k + 1] == run[..k] + [run[k]];
        if x == endX && y == endY {
          assert run[..k + 1] == run;
          break;
        }
        assert MovesAt(run, errors, Point(x0, y0), Point(endX, endY), k);
        var doubled := error * 2;
        if doubled >= dy {
          error := error + dy;
          x := x + sx;
        }
        if doubled <= dx {
          error := error + dx;
          y := y + sy;
        }
        k := k + 1;
      }
    }

    /** A line, drawn from whichever end makes memory accesses advance. The pixels changed are exactly
        the visible ones of a line between the two points. */
    method DrawLine(x0: nat, y0: nat, x1: nat, y1: nat, color: Color) returns (ghost path: seq<Point>)
      requires Valid()
      modifies memory.psram, memory.cached, memory.lines
      ensures Valid()
      ensures IsLine(path, Point(x0, y0), Point(x1, y1)) || IsLine(path, Point(x1, y1), Point(x0, y0))
      ensures forall p :: 0 <= p < PIXELS ==>
                memory.Home(p) == if InClip(p) && Point(X(p), Y(p)) in path then color else old(memory.Home(p))
    {
      var x, y, endX, endY := x0, y0, x1, y1;
      if x < endX || (x == endX && y > endY) {
        x, endX := endX, x;
        y, endY := endY, y;
      }
      ghost var from, to := Point(x, y), Point(endX, endY);
      path := LinePath(from, to);
      LinePathIsARun(from, to);
      TraceLine(x, y, endX, endY, color, path, LineErrors(from, to));
      LinePathIsALine(from, to);
    }

    /** One pixel of the first octant and its seven mirror images. */
    method PlotOctants(centerX: nat, centerY: nat, x: int, y: int, color: Color)
      requires Valid() && 0 <= y <= x
      modifies memory.psram, memory.cached, memory.lines
      ensures Valid()
      ensures forall p :: 0 <= p < PIXELS ==>
                var dx, dy := Abs(X(p) - centerX), Abs(Y(p) - centerY);
                memory.Home(p) == if InClip(p) && Max(dx, dy) == x && Min(dx, dy) == y then color
                    else old(memory.Home(p))
    {
      var points := [(x, y), (y, x), (-y, x), (-x, y), (-x, -y), (-y, -x), (y, -x), (x, -y)];
      for n := 0 to 8
        invariant Valid()
        invariant forall p :: 0 <= p < PIXELS ==>
                    memory.Home(p) == if InClip(p) && (X(p) - centerX, Y(p) - centerY) in points[..n] then color
                        else old(memory.Home(p))
      {
        var px, py := centerX + points[n].0, centerY + points[n].1;
        if px >= 0 && py >= 0 {
          DrawPixel(px, py, color);
        }
      }
      assert points[..8] == points;
    }

    /** The midpoint circle. The pixels changed are exactly the visible ones whose octant image is one
        of the columns visited, and those are a nearest column in every row of the octant. */
    method DrawCircle(centerX: nat, centerY: nat, radius: nat, color: Color) returns (ghost columns: seq<int>)
      requires Valid()
      modifies memory.psram, memory.cached, memory.lines
      ensures Valid() && IsOctant(columns, radius)
      ensures forall p :: 0 <= p < PIXELS ==>
                var dx, dy := Abs(X(p) - centerX), Abs(Y(p) - centerY);
                memory.Home(p) == if InClip(p) && OnOctant(columns, dx, dy) then color else old(memory.Home(p))
    {
      var x, y, error := radius as int, 0, 1 - radius;
      columns := [];
      while x >= y
        invariant Valid() && y == |columns| && (x, error) == CircleAt(radius, y)
        invariant x >= if y == 0 then 0 else y - 2
        invariant Visited(columns, radius)
        invariant forall p :: 0 <= p < PIXELS ==>
                    var dx, dy := Abs(X(p) - centerX), Abs(Y(p) - centerY);
                    memory.Home(p) == if InClip(p) && OnOctant(columns, dx, dy) then color else old(memory.Home(p))
        decreases x - y
      {
        PlotOctants(centerX, centerY, x, y, color);
        OctantGrows(columns, x);
        VisitedGrows(columns, x, radius);
        columns := columns + [x];
        y := y + 1;
        if error < 0 {
          error := error + 2 * y + 1;
        } else {
          x := x - 1;
          error := error + 2 * (y - x) + 1;
        }
        assert (x, error) == CircleAt(radius, y);
      }
      OctantIsComplete(columns, radius);
    }

    /** Pixels `start..=end` of one row. */
    method FillRow(y: nat, start: int, end: int, color: Color)
      requires Valid()
      modifies memory.psram, memory.cached, memory.lines
      ensures Valid()
      ensures forall p :: 0 <= p < PIXELS ==>
                memory.Home(p) == if InClip(p) && Y(p) == y && start <= X(p) <= end then color else old(memory.Home(p))
    {
      var x := start;
      while x <= end
        invariant Valid()
        invariant forall p :: 0 <= p < PIXELS ==>
                    memory.Home(p) == if InClip(p) && Y(p) == y && start <= X(p) <= end && X(p) < x then color
                        else old(memory.Home(p))
      {
        if x >= 0 {
          DrawPixel(x, y, color);
        }
        x := x + 1;
      }
    }

    /** A disc, row by row: exactly the visible pixels no farther than `radius` from the center. */
    method FillCircle(centerX: nat, centerY: nat, radius: nat, color: Color)
      requires Valid()
      modifies memory.psram, memory.cached, memory.lines
      ensures Valid()
      ensures forall p :: 0 <= p < PIXELS ==>
                memory.Home(p) == if InClip(p) && InDisc(X(p) - centerX, Y(p) - centerY, radius) then color
                    else old(memory.Home(p))
    {
      var y: int := -(radius as int);
      forall p | 0 <= p < PIXELS && Y(p) - centerY < y
        ensures !InDisc(X(p) - centerX, Y(p) - centerY, radius)
      {
        OutsideRadius(radius, X(p) - centerX, Y(p) - centerY);
      }
      while y <= radius
        invariant Valid() && -(radius as int) <= y <= radius + 1
        invariant forall p :: 0 <= p < PIXELS ==>
                    memory.Home(p)
                        == if InClip(p) && Y(p) - centerY < y && InDisc(X(p) - centerX, Y(p) - centerY, radius)
                                      then color else old(memory.Home(p))
      {
        InRadius(radius, y);
        var span := IntegerSqrt(radius * radius - y * y);
        RowOfDisc(span, radius, y);
        if centerY + y >= 0 {
          FillRow(centerY + y, centerX - span, centerX + span, color);
        }
        y := y + 1;
      }
      forall p | 0 <= p < PIXELS && Y(p) - centerY >= y
        ensures !InDisc(X(p) - centerX, Y(p) - centerY, radius)
      {
        OutsideRadius(radius, X(p) - centerX, Y(p) - centerY);
      }
    }
  }
}
