/**
SD block transfers of src/sdmmc.rs: descriptor chains, the choice between a
direct and a staged transfer, and what a card is asked for on the wire.
*/
module SdBlocks {
  import opened Wrappers
  import opened Basics

  const BLOCK_BYTES := 512
  const DMA_ALIGN := 64
  const DMA_STAGING_BYTES := 4096
  const DESC_MAX_BUFFER_BYTES := 4096
  const MAX_DESCRIPTORS := 8
  const DESCRIPTOR_BYTES := 64
  const U32 := 0x1_0000_0000

  // --- descriptor chains ----------------------------------------------------

  datatype Descriptor = Descriptor(first: bool, last: bool, size: nat, pointer: nat, next: nat)

  /** `length` consecutive addresses. */
  function Span(start: nat, length: nat): (addresses: seq<nat>)
    ensures |addresses| == length
  {
    seq(length, i requires 0 <= i => start + i)
  }

  /** What the DMA engine does with a chain whose descriptors lie at `base`: it goes where each next
      pointer says, gathering buffers, until it meets one marked last. */
  function Follow(chain: seq<Descriptor>, base: nat, at: nat, fuel: nat): Option<seq<nat>>
    decreases fuel
  {
    if fuel == 0 || at < base || (at - base) % DESCRIPTOR_BYTES != 0 || (at - base) / DESCRIPTOR_BYTES >= |chain|
        then None
    else
      var d := chain[(at - base) / DESCRIPTOR_BYTES];
      if d.last then Some(Span(d.pointer, d.size))
      else
        match Follow(chain, base, d.next, fuel - 1)
        case None => None
        case Some(rest) => Some(Span(d.pointer, d.size) + rest)
  }

  /** Descriptor `i` of `count` for a buffer. */
  function Piece(base: nat, buffer: nat, total: nat, count: nat, i: nat): Descriptor
    requires i * DESC_MAX_BUFFER_BYTES <= total
  {
    Descriptor(i == 0, i + 1 == count, Min(total - i * DESC_MAX_BUFFER_BYTES, DESC_MAX_BUFFER_BYTES),
               buffer + i * DESC_MAX_BUFFER_BYTES, if i + 1 == count then 0 else base + (i + 1) * DESCRIPTOR_BYTES)
  }

  lemma {:induction false} PiecesTile(chain: seq<Descriptor>, base: nat, buffer: nat, total: nat, count: nat, i: nat,
                                      fuel: nat)
    requires i < count <= |chain| && fuel >= count - i
    requires (count - 1) * DESC_MAX_BUFFER_BYTES < total <= count * DESC_MAX_BUFFER_BYTES
    requires forall k :: 0 <= k < count ==> chain[k] == Piece(base, buffer, total, count, k)
    ensures var offset := i * DESC_MAX_BUFFER_BYTES;
            Follow(chain, base, base + i * DESCRIPTOR_BYTES, fuel) == Some(Span(buffer + offset, total - offset))
    decreases count - i
  {
    assert (i * DESCRIPTOR_BYTES) / DESCRIPTOR_BYTES == i && (i * DESCRIPTOR_BYTES) % DESCRIPTOR_BYTES == 0;
    var offset := i * DESC_MAX_BUFFER_BYTES;
    var d := chain[i];
    if i + 1 < count {
      PiecesTile(chain, base, buffer, total, count, i + 1, fuel - 1);
      assert Span(d.pointer, d.size) + Span(buffer + offset + DESC_MAX_BUFFER_BYTES,
                                            total - offset - DESC_MAX_BUFFER_BYTES)
          == Span(buffer + offset, total - offset);
    }
  }

  /** Describes a whole buffer, or refuses one the chain has no room for. Followed from its first
      descriptor the chain visits every byte of the buffer once and in order. */
  method BuildDescriptorChain(descriptors: array<Descriptor>, base: nat, buffer: nat, total: nat)
      returns (used: Option<nat>)
    requires descriptors.Length == MAX_DESCRIPTORS
    modifies descriptors
    ensures used.Some? <==> 0 < total <= MAX_DESCRIPTORS * DESC_MAX_BUFFER_BYTES
    ensures used.Some? ==>
              && 0 < used.value <= MAX_DESCRIPTORS
              && Follow(descriptors[..], base, base, used.value) == Some(Span(buffer, total))
              && forall k :: 0 <= k < used.value ==>
                   && (descriptors[k].first <==> k == 0) && (descriptors[k].last <==> k == used.value - 1)
                   && 0 < descriptors[k].size <= DESC_MAX_BUFFER_BYTES
  {
    var count := (total + DESC_MAX_BUFFER_BYTES - 1) / DESC_MAX_BUFFER_BYTES;
    if count == 0 || count > MAX_DESCRIPTORS {
      return None;
    }
    var offset := 0;
    for i := 0 to count
      invariant offset == Min(i * DESC_MAX_BUFFER_BYTES, total)
      invariant forall k :: 0 <= k < i ==> descriptors[k] == Piece(base, buffer, total, count, k)
    {
      var chunk := Min(total - offset, DESC_MAX_BUFFER_BYTES);
      var isLast := i + 1 == count;
      descriptors[i] := Descriptor(i == 0, isLast, chunk, buffer + offset,
                                   if isLast then 0 else base + (i + 1) * DESCRIPTOR_BYTES);
      offset := offset + chunk;
    }
    PiecesTile(descriptors[..], base, buffer, total, count, 0, count);
    used := Some(count);
  }

  // --- addresses on the wire ------------------------------------------------

  /** What a command carries: a block number, or on a standard-capacity card a byte offset in 32 bits. */
  function WireAddress(highCapacity: bool, lba: nat): nat {
    if highCapacity then lba else lba * BLOCK_BYTES % U32
  }

  /** The first byte of the medium a command with that address reaches. */
  function Reached(highCapacity: bool, address: nat): nat {
    if highCapacity then address * BLOCK_BYTES else address
  }

  /** How many blocks a 32-bit address can tell apart. */
  function Reach(highCapacity: bool): nat {
    if highCapacity then U32 else U32 / BLOCK_BYTES
  }

  /** A command for a 32-bit block number reaches that block exactly when the card counts in blocks or
      the block's byte offset fits the 32 bits; past that it silently reaches another block. */
  lemma WireReachesTheBlock(highCapacity: bool, lba: nat)
    requires lba < U32
    ensures Reached(highCapacity, WireAddress(highCapacity, lba)) == lba * BLOCK_BYTES <==> lba < Reach(highCapacity)
  {
  }

  /** Block numbers advance chunk by chunk, in 32 bits, without losing the place. */
  lemma ChunkReached(highCapacity: bool, lba: nat, offset: nat, at: nat)
    requires offset % BLOCK_BYTES == 0 && at == (lba + offset / BLOCK_BYTES) % U32
    requires lba + offset / BLOCK_BYTES < Reach(highCapacity)
    ensures Reached(highCapacity, WireAddress(highCapacity, at)) == lba * BLOCK_BYTES + offset
  {
    WireReachesTheBlock(highCapacity, at);
  }

  lemma ChunkMoves(lba: nat, bytes: nat, offset: nat)
    requires bytes % BLOCK_BYTES == 0 && offset % BLOCK_BYTES == 0 && offset < bytes
    ensures var chunk := Min(bytes - offset, DMA_STAGING_BYTES);
            && chunk > 0 && chunk % BLOCK_BYTES == 0 && (offset + chunk) % BLOCK_BYTES == 0
            && ((lba + offset / BLOCK_BYTES) % U32 + chunk / BLOCK_BYTES) % U32
                == (lba + (offset + chunk) / BLOCK_BYTES) % U32
  {
    var chunk := Min(bytes - offset, DMA_STAGING_BYTES);
    assert (offset + chunk) / BLOCK_BYTES == offset / BLOCK_BYTES + chunk / BLOCK_BYTES;
  }

  // --- transfers --------------------------------------------------------------

  class Host {
    const ram: array<Byte>
    const medium: array<Byte>
    const highCapacity: bool
    /** The aligned staging buffer. */
    const staging: nat
    /** How often the cache, a command or the card itself failed. */
    ghost var refusals: nat

    ghost predicate Valid() {
      && ram != medium
      && medium.Length % BLOCK_BYTES == 0 && medium.Length <= U32 * BLOCK_BYTES
      && staging % DMA_ALIGN == 0 && staging + DMA_STAGING_BYTES <= ram.Length
    }

    /** Runs of blocks a command can name. */
    predicate Addressable(lba: nat, blocks: nat) {
      lba + blocks <= Reach(highCapacity)
    }

    constructor (ram: array<Byte>, medium: array<Byte>, highCapacity: bool, staging: nat)
      requires ram != medium && medium.Length % BLOCK_BYTES == 0 && medium.Length <= U32 * BLOCK_BYTES
      requires staging % DMA_ALIGN == 0 && staging + DMA_STAGING_BYTES <= ram.Length
      ensures Valid() && this.ram == ram && this.medium == medium
    {
      refusals := 0;
      this.ram, this.medium, this.highCapacity, this.staging := ram, medium, highCapacity, staging;
    }

    /** What one command can move: whole blocks, no more than the descriptors cover. */
    static predicate OneCommand(bytes: nat) {
      0 < bytes <= MAX_DESCRIPTORS * DESC_MAX_BUFFER_BYTES && bytes % BLOCK_BYTES == 0
    }

    /** One command's data phase. Buffers that are misaligned or too long are refused; refused cache
        operations, a failed command and a card at its end all report failure, having moved any part
        of the data. */
    method TransferBlocks(lba: nat, buffer: nat, bytes: nat, isWrite: bool) returns (done: bool)
      requires Valid() && buffer + bytes <= ram.Length
      modifies ram, medium, this`refusals
      ensures refusals == old(refusals) + if OneCommand(bytes) && buffer % DMA_ALIGN == 0 && !done then 1 else 0
      ensures done <==> OneCommand(bytes) && buffer % DMA_ALIGN == 0 && refusals == old(refusals)
      ensures var start := Reached(highCapacity, WireAddress(highCapacity, lba));
              && (done ==> start + bytes <= medium.Length)
              && (done && !isWrite ==> forall a :: buffer <= a < buffer + bytes ==>
                    ram[a] == medium[start + (a - buffer)])
              && (done && isWrite ==> forall a :: start <= a < start + bytes ==> medium[a] == ram[buffer + (a - start)])
              && (forall a :: 0 <= a < ram.Length && (isWrite || !(buffer <= a < buffer + bytes)) ==>
                    ram[a] == old(ram[a]))
              && (forall a :: 0 <= a < medium.Length && (!isWrite || !(start <= a < start + bytes)) ==>
                    medium[a] == old(medium[a]))
    {
      if bytes == 0 || bytes % BLOCK_BYTES != 0 || buffer % DMA_ALIGN != 0 {
        return false;
      }
      var descriptors := new Descriptor[MAX_DESCRIPTORS](_ => Descriptor(false, false, 0, 0, 0));
      var base: nat := 0;
      var used := BuildDescriptorChain(descriptors, base, buffer, bytes);
      var accepted: bool := *;
      if used == None {
        return false;
      }
      if !accepted {
        refusals := refusals + 1;
        return false;
      }
      var visited := Follow(descriptors[..], base, base, used.value);
      var start := Reached(highCapacity, WireAddress(highCapacity, lba));
      if start + bytes > medium.Length {
        refusals := refusals + 1;
        return false;
      }
      for k := 0 to bytes
        invariant refusals == old(refusals)
        invariant !isWrite ==> forall a :: buffer <= a < buffer + k ==> ram[a] == medium[start + (a - buffer)]
        invariant isWrite ==> forall a :: start <= a < start + k ==> medium[a] == ram[buffer + (a - start)]
        invariant forall a :: 0 <= a < ram.Length && (isWrite || !(buffer <= a < buffer + k)) ==> ram[a] == old(ram[a])
        invariant forall a :: 0 <= a < medium.Length && (!isWrite || !(start <= a < start + k)) ==>
                    medium[a] == old(medium[a])
      {
        var failed: bool := *;
        if failed {
          refusals := refusals + 1;
          return false;
        }
        var address := visited.value[k];
        assert address == buffer + k;
        if isWrite {
          medium[start + k] := ram[address];
        } else {
          ram[address] := medium[start + k];
        }
      }
      done := *;
      refusals := refusals + if done then 0 else 1;
    }

    /** Copies bytes from one place in memory to another that does not overlap it. */
    method CopyBytes(to: nat, from: nat, bytes: nat)
      requires Valid() && from + bytes <= ram.Length && to + bytes <= ram.Length
      requires from + bytes <= to || to + bytes <= from
      modifies ram
      ensures forall a :: 0 <= a < ram.Length ==>
                ram[a] == if to <= a < to + bytes then old(ram[from + (a - to)]) else old(ram[a])
    {
      for k := 0 to bytes
        invariant forall a :: 0 <= a < ram.Length ==>
                    ram[a] == if to <= a < to + k then old(ram[from + (a - to)]) else old(ram[a])
      {
        ram[to + k] := ram[from + k];
      }
    }

    /** Reads consecutive blocks: straight into an aligned buffer, through the staging buffer
        otherwise. A successful read of addressable blocks is the card's blocks, and touches no other
        memory but the staging buffer. */
    method ReadBlocks(lba: nat, buffer: nat, bytes: nat) returns (done: bool)
      requires Valid() && lba < U32 && buffer + bytes <= ram.Length
      requires buffer + bytes <= staging || staging + DMA_STAGING_BYTES <= buffer
      modifies ram, medium, this`refusals
      ensures old(refusals) <= refusals <= old(refusals) + 1
      ensures done <==>
                && bytes > 0 && bytes % BLOCK_BYTES == 0 && refusals == old(refusals)
                && (buffer % DMA_ALIGN == 0 ==> OneCommand(bytes))
      ensures done && Addressable(lba, bytes / BLOCK_BYTES) ==>
                && lba * BLOCK_BYTES + bytes <= medium.Length
                && forall a :: buffer <= a < buffer + bytes ==> ram[a] == medium[lba * BLOCK_BYTES + (a - buffer)]
      ensures forall a :: 0 <= a < medium.Length ==> medium[a] == old(medium[a])
      ensures forall a ::
                0 <= a < ram.Length
                && !(buffer <= a < buffer + bytes) && !(staging <= a < staging + DMA_STAGING_BYTES) ==>
                  ram[a] == old(ram[a])
    {
      if bytes == 0 || bytes % BLOCK_BYTES != 0 {
        return false;
      }
      if buffer % DMA_ALIGN == 0 {
        WireReachesTheBlock(highCapacity, lba);
        done := TransferBlocks(lba, buffer, bytes, false);
        return;
      }
      done := ReadStaged(lba, buffer, bytes);
    }

    /** The staged path: a chunk at a time into the staging buffer, and from there to its place. */
    method ReadStaged(lba: nat, buffer: nat, bytes: nat) returns (done: bool)
      requires Valid() && lba < U32 && buffer + bytes <= ram.Length && 0 < bytes && bytes % BLOCK_BYTES == 0
      requires buffer + bytes <= staging || staging + DMA_STAGING_BYTES <= buffer
      modifies ram, medium, this`refusals
      ensures refusals == old(refusals) + if done then 0 else 1
      ensures done && Addressable(lba, bytes / BLOCK_BYTES) ==>
                && lba * BLOCK_BYTES + bytes <= medium.Length
                && forall a :: buffer <= a < buffer + bytes ==> ram[a] == medium[lba * BLOCK_BYTES + (a - buffer)]
      ensures forall a :: 0 <= a < medium.Length ==> medium[a] == old(medium[a])
      ensures forall a ::
                0 <= a < ram.Length
                && !(buffer <= a < buffer + bytes) && !(staging <= a < staging + DMA_STAGING_BYTES) ==>
                  ram[a] == old(ram[a])
    {
      var at: nat, offset: nat := lba, 0;
      while offset < bytes
        invariant offset <= bytes && offset % BLOCK_BYTES == 0 && refusals == old(refusals)
        invariant Addressable(lba, bytes / BLOCK_BYTES) ==>
                    && (offset > 0 ==> lba * BLOCK_BYTES + offset <= medium.Length)
                    && at == (lba + offset / BLOCK_BYTES) % U32
                    && forall a :: buffer <= a < buffer + offset ==> ram[a] == medium[lba * BLOCK_BYTES + (a - buffer)]
        invariant forall a :: 0 <= a < medium.Length ==> medium[a] == old(medium[a])
        invariant forall a ::
                    0 <= a < ram.Length
                    && !(buffer <= a < buffer + bytes) && !(staging <= a < staging + DMA_STAGING_BYTES) ==>
                      ram[a] == old(ram[a])
      {
        var chunk := Min(bytes - offset, DMA_STAGING_BYTES);
        ChunkMoves(lba, bytes, offset);
        if Addressable(lba, bytes / BLOCK_BYTES) {
          ChunkReached(highCapacity, lba, offset, at);
        }
        var moved := TransferBlocks(at, staging, chunk, false);
        if !moved {
          return false;
        }
        CopyBytes(buffer + offset, staging, chunk);
        at := (at + chunk / BLOCK_BYTES) % U32;
        offset := offset + chunk;
      }
      done := true;
    }

    /** Writes consecutive blocks, always through the staging buffer. A successful write of
        addressable blocks changes exactly those blocks, to exactly the buffer; a failed one changes
        nothing outside them. */
    method WriteBlocks(lba: nat, buffer: nat, bytes: nat) returns (done: bool)
      requires Valid() && lba < U32 && buffer + bytes <= ram.Length
      requires buffer + bytes <= staging || staging + DMA_STAGING_BYTES <= buffer
      modifies ram, medium, this`refusals
      ensures old(refusals) <= refusals <= old(refusals) + 1
      ensures done <==> bytes > 0 && bytes % BLOCK_BYTES == 0 && refusals == old(refusals)
      ensures Addressable(lba, bytes / BLOCK_BYTES) ==>
                && (done ==> lba * BLOCK_BYTES + bytes <= medium.Length)
                && (done ==> forall a :: lba * BLOCK_BYTES <= a < lba * BLOCK_BYTES + bytes ==>
                     medium[a] == old(ram[buffer + (a - lba * BLOCK_BYTES)]))
                && forall a :: 0 <= a < medium.Length && !(lba * BLOCK_BYTES <= a < lba * BLOCK_BYTES + bytes) ==>
                     medium[a] == old(medium[a])
      ensures forall a :: 0 <= a < ram.Length && !(staging <= a < staging + DMA_STAGING_BYTES) ==> ram[a] == old(ram[a])
    {
      if bytes == 0 || bytes % BLOCK_BYTES != 0 {
        return false;
      }
      var at: nat, offset: nat := lba, 0;
      while offset < bytes
        invariant offset <= bytes && offset % BLOCK_BYTES == 0 && refusals == old(refusals)
        invariant Addressable(lba, bytes / BLOCK_BYTES) ==>
                    && (offset > 0 ==> lba * BLOCK_BYTES + offset <= medium.Length)
                    && at == (lba + offset / BLOCK_BYTES) % U32
                    && (forall a :: lba * BLOCK_BYTES <= a < lba * BLOCK_BYTES + offset ==>
                         medium[a] == old(ram[buffer + (a - lba * BLOCK_BYTES)]))
                    && (forall a :: 0 <= a < medium.Length && !(lba * BLOCK_BYTES <= a < lba * BLOCK_BYTES + bytes) ==>
                         medium[a] == old(medium[a]))
        invariant forall a :: 0 <= a < ram.Length && !(staging <= a < staging + DMA_STAGING_BYTES) ==>
                    ram[a] == old(ram[a])
      {
        var chunk := Min(bytes - offset, DMA_STAGING_BYTES);
        ChunkMoves(lba, bytes, offset);
        CopyBytes(staging, buffer + offset, chunk);
        if Addressable(lba, bytes / BLOCK_BYTES) {
          ChunkReached(highCapacity, lba, offset, at);
        }
        var moved := TransferBlocks(at, staging, chunk, true);
        if !moved {
          return false;
        }
        at := (at + chunk / BLOCK_BYTES) % U32;
        offset := offset + chunk;
      }
      done := true;
    }
  }
}
