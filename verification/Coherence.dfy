/**
The external framebuffer memory of src/psram.rs behind a write-back cache, as
the CPU, a DMA engine and the cache itself may each touch it at any time.
*/
module Coherence {
  import opened Basics

  const NATIVE_WIDTH := 720
  const NATIVE_HEIGHT := 1280
  const PIXELS := 921600
  const BYTES_PER_PIXEL := 2
  const FRAMEBUFFER_BYTES := 1843200
  const CACHE_LINE_BYTES := 64
  /** Pixels in one cache line. */
  const LINE := 32

  type Color = nat

  datatype LineState = Absent | Clean | Dirty

  /** Where a range of bytes, widened to whole cache lines, begins and ends. */
  function AlignedOffset(offset: nat): nat {
    offset - offset % CACHE_LINE_BYTES
  }

  function AlignedEnd(end: nat): nat
    requires end <= FRAMEBUFFER_BYTES
  {
    var widened := Min(end + (CACHE_LINE_BYTES - 1), FRAMEBUFFER_BYTES);
    var aligned := widened - widened % CACHE_LINE_BYTES;
    if aligned < end then FRAMEBUFFER_BYTES else aligned
  }

  /** The widened range is exactly the lines that hold a byte of the range: none is missed, and none
      beside them is thrown away. */
  lemma WidenedRangeIsItsLines(offset: nat, end: nat, byte: nat)
    requires offset < end <= FRAMEBUFFER_BYTES && byte < FRAMEBUFFER_BYTES
    ensures AlignedOffset(offset) <= byte < AlignedEnd(end) <==>
            exists b: nat :: offset <= b < end && b / CACHE_LINE_BYTES == byte / CACHE_LINE_BYTES
    ensures AlignedOffset(offset) % CACHE_LINE_BYTES == 0 && AlignedEnd(end) % CACHE_LINE_BYTES == 0
    ensures AlignedEnd(end) <= FRAMEBUFFER_BYTES
  {
    var line := byte / CACHE_LINE_BYTES;
    assert AlignedOffset(offset) / CACHE_LINE_BYTES == offset / CACHE_LINE_BYTES;
    assert AlignedEnd(end) / CACHE_LINE_BYTES == (end - 1) / CACHE_LINE_BYTES + 1;
    if offset / CACHE_LINE_BYTES <= line <= (end - 1) / CACHE_LINE_BYTES {
      var b := if line == offset / CACHE_LINE_BYTES then offset else line * CACHE_LINE_BYTES;
      assert offset <= b < end && b / CACHE_LINE_BYTES == line;
    }
  }

  class Memory {
    const psram: array<Color>
    const cached: array<Color>
    const lines: array<LineState>
    /** How many cache operations have been refused so far. */
    ghost var refusals: nat

    ghost predicate Valid() {
      && psram.Length == cached.Length == PIXELS && psram != cached
      && lines.Length * LINE == PIXELS
    }

    // --- what a pixel is worth ------------------------------------------------

    /** What memory ends up holding once every dirty line has been evicted. */
    ghost function Home(p: nat): Color
      requires Valid() && p < PIXELS
      reads psram, cached, lines
    {
      if lines[p / LINE] == Dirty then cached[p] else psram[p]
    }

    /** What a CPU read returns. */
    ghost function Seen(p: nat): Color
      requires Valid() && p < PIXELS
      reads psram, cached, lines
    {
      if lines[p / LINE] == Absent then psram[p] else cached[p]
    }

    /** No clean copy of the pixel disagrees with memory. */
    ghost predicate Fresh(p: nat)
      requires Valid() && p < PIXELS
      reads psram, cached, lines
    {
      lines[p / LINE] == Clean ==> cached[p] == psram[p]
    }

    ghost predicate Owned(p: nat)
      requires Valid() && p < PIXELS
      reads lines
    {
      lines[p / LINE] == Dirty
    }

    ghost predicate AllFresh()
      requires Valid()
      reads psram, cached, lines
    {
      forall p :: 0 <= p < PIXELS ==> Fresh(p)
    }

    /** Freshness is what makes the CPU, the display and a later eviction agree on a pixel. */
    lemma FreshMeansOneValue(p: nat)
      requires Valid() && p < PIXELS
      ensures Fresh(p) <==> Seen(p) == Home(p)
    {
    }

    /** What the cache may do on its own, or because of unrelated work: nothing that a fresh pixel
        could notice, and never make a line dirty. */
    twostate predicate Undisturbed()
      requires Valid()
      reads psram, cached, lines
    {
      && (forall p :: 0 <= p < PIXELS ==> Home(p) == old(Home(p)))
      && (forall p :: 0 <= p < PIXELS ==> old(Fresh(p)) ==> Fresh(p))
      && (forall p :: 0 <= p < PIXELS ==> Owned(p) ==> old(Owned(p)))
    }

    // --- the cache ------------------------------------------------------------

    constructor ()
      ensures Valid() && fresh(psram) && fresh(cached) && fresh(lines)
      ensures AllFresh()
    {
      psram := new Color[PIXELS](_ => 0);
      cached := new Color[PIXELS](_ => 0);
      lines := new LineState[PIXELS / LINE](_ => Absent);
    }

    /** Writes one line back if it is dirty. */
    method Evict(line: nat)
      requires Valid() && line < lines.Length
      modifies psram, lines
      ensures Undisturbed()
      ensures lines[line] == Absent
      ensures forall l :: 0 <= l < lines.Length && l != line ==> lines[l] == old(lines[l])
    {
      if lines[line] == Dirty {
        var base := line * LINE;
        forall p | base <= p < base + LINE {
          psram[p] := cached[p];
        }
      }
      lines[line] := Absent;
    }

    /** Loads one absent line. */
    method Load(line: nat)
      requires Valid() && line < lines.Length && lines[line] == Absent
      modifies cached, lines
      ensures Undisturbed()
      ensures old(AllFresh()) ==> AllFresh()
      ensures lines[line] == Clean
      ensures forall p :: line * LINE <= p < line * LINE + LINE ==> cached[p] == psram[p]
    {
      var base := line * LINE;
      forall p | base <= p < base + LINE {
        cached[p] := psram[p];
      }
      lines[line] := Clean;
    }

    /** Any evictions and loads whatever. */
    method Ambient()
      requires Valid()
      modifies psram, cached, lines
      ensures Undisturbed()
      ensures old(AllFresh()) ==> AllFresh()
    {
      var rounds: int := *;
      while rounds > 0
        invariant Undisturbed()
        decreases rounds
      {
        var line: int := *;
        var load: bool := *;
        if 0 <= line < lines.Length {
          if lines[line] != Absent {
            Evict(line);
          } else if load {
            Load(line);
          }
        }
        rounds := rounds - 1;
      }
    }

    /** The ROM's writeback-and-invalidate over whole lines. It may refuse, having done any part. */
    method WritebackInvalidate(address: nat, bytes: nat) returns (accepted: bool)
      requires Valid() && address % CACHE_LINE_BYTES == 0 && bytes % CACHE_LINE_BYTES == 0
      requires address + bytes <= FRAMEBUFFER_BYTES
      modifies psram, cached, lines, this`refusals
      ensures Undisturbed()
      ensures refusals == old(refusals) + if accepted then 0 else 1
      ensures accepted ==> forall p :: address <= p * BYTES_PER_PIXEL < address + bytes ==> Fresh(p) && !Owned(p)
    {
      Ambient();
      accepted := *;
      if !accepted {
        refusals := refusals + 1;
        return;
      }
      var first, end := address / CACHE_LINE_BYTES, (address + bytes) / CACHE_LINE_BYTES;
      for line := first to end
        invariant Undisturbed() && refusals == old(refusals)
        invariant forall l :: first <= l < line ==> lines[l] == Absent
      {
        Evict(line);
      }
      assert forall p :: address <= p * BYTES_PER_PIXEL < address + bytes ==> first <= p / LINE < end;
      Ambient();
    }

    /** Bounds and widens a byte range, and hands it to the cache. */
    method WritebackRange(offset: nat, bytes: nat) returns (done: bool)
      requires Valid()
      modifies psram, cached, lines, this`refusals
      ensures Undisturbed()
      ensures done <==> 0 < bytes && offset + bytes <= FRAMEBUFFER_BYTES && refusals == old(refusals)
      ensures refusals == old(refusals) + if done || bytes == 0 || offset + bytes > FRAMEBUFFER_BYTES then 0 else 1
      ensures done ==> forall p :: offset <= p * BYTES_PER_PIXEL < offset + bytes ==> Fresh(p) && !Owned(p)
    {
      var end := offset + bytes;
      if bytes == 0 || end > FRAMEBUFFER_BYTES {
        return false;
      }
      WidenedRangeIsItsLines(offset, end, offset);
      var alignedOffset := AlignedOffset(offset);
      var alignedEnd := AlignedEnd(end);
      done := WritebackInvalidate(alignedOffset, alignedEnd - alignedOffset);
    }

    // --- its users ------------------------------------------------------------

    /** A CPU store: the line is allocated first and left dirty. Stores mean what they say only while
        the cache is fresh: a stale clean line is dirtied with its stale neighbours. */
    method Store(p: nat, color: Color)
      requires Valid() && p < PIXELS
      modifies psram, cached, lines
      ensures old(AllFresh()) ==> AllFresh()
      ensures old(AllFresh()) ==>
                forall q :: 0 <= q < PIXELS ==> Home(q) == if q == p then color else old(Home(q))
    {
      Ambient();
      if lines[p / LINE] == Absent {
        Load(p / LINE);
      }
      StoreResident(p, color);
      Ambient();
    }

    /** The store itself, into a line that is in the cache. */
    method StoreResident(p: nat, color: Color)
      requires Valid() && p < PIXELS && lines[p / LINE] != Absent
      modifies cached, lines
      ensures old(AllFresh()) ==> AllFresh()
      ensures old(AllFresh()) ==>
                forall q :: 0 <= q < PIXELS ==> Home(q) == if q == p then color else old(Home(q))
    {
      forall q | 0 <= q < PIXELS
        ensures AllFresh() && q / LINE == p / LINE ==> cached[q] == Home(q)
      {
        assert AllFresh() ==> Fresh(q);
      }
      cached[p] := color;
      lines[p / LINE] := Dirty;
      forall q | 0 <= q < PIXELS
        ensures old(AllFresh()) ==> Fresh(q)
      {
        assert old(AllFresh()) ==> old(Fresh(q));
      }
    }

    /** A DMA write goes behind the cache: it is lost if a dirty copy is evicted later, and leaves a
        clean copy stale. */
    method DmaWrite(p: nat, color: Color)
      requires Valid() && p < PIXELS && !Owned(p)
      modifies psram
      ensures forall q :: 0 <= q < PIXELS ==> Home(q) == if q == p then color else old(Home(q))
      ensures forall q :: 0 <= q < PIXELS && q != p && old(Fresh(q)) ==> Fresh(q)
    {
      psram[p] := color;
    }

    method DmaRead(p: nat) returns (color: Color)
      requires Valid() && p < PIXELS && !Owned(p)
      ensures color == Home(p)
    {
      color := psram[p];
    }
  }
}
