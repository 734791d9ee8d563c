/**
 The growing byte buffer behind `jse_read_fd_once` and `jse_read_fd`
 (source/jse_common.c).  A buffer is a heap block of `size` bytes whose first `off`
 bytes hold data.  The block doubles when it becomes full and is cut to the data at
 end of file.
 */
module ReadBuffer {
  import opened Basics

  newtype byte = x: int | 0 <= x < 256

  /** What a `read` system call gave back: -1, or that many bytes (none at end of file). */
  datatype ReadResult = Failed | Got(data: seq<byte>)

  /** The abstract buffer: the bytes held and the size variable of the C code. */
  datatype Buf = Buf(got: seq<byte>, size: nat)
  {
    /** The byte count that the next `read` asks for; room is left before end of file. */
    predicate HasRoom() { |got| < size }
  }

  const INITIAL_SIZE := 4096

  const FRESH := Buf([], INITIAL_SIZE)

  /** One successful `jse_read_fd_once`: append and double, or cut at end of file. */
  function Absorb(b: Buf, data: seq<byte>): Buf {
    var got := b.got + data;
    if data == [] then Buf(got, |got|)
    else Buf(got, if |got| == b.size then 2 * b.size else b.size)
  }

  /** The bytes that the growing `realloc` of this call moves. */
  function GrowthCost(b: Buf, data: seq<byte>): nat {
    if data != [] && |b.got| + |data| == b.size then b.size else 0
  }

  /** Every chunk is non-empty and no longer than the room asked for. */
  predicate Fits(b: Buf, chunks: seq<seq<byte>>)
    decreases |chunks|
  {
    chunks == [] ||
    (0 < |chunks[0]| <= b.size - |b.got| && Fits(Absorb(b, chunks[0]), chunks[1..]))
  }

  function AbsorbAll(b: Buf, chunks: seq<seq<byte>>): Buf
    decreases |chunks|
  {
    if chunks == [] then b else AbsorbAll(Absorb(b, chunks[0]), chunks[1..])
  }

  function TotalCost(b: Buf, chunks: seq<seq<byte>>): nat
    decreases |chunks|
  {
    if chunks == [] then 0
    else GrowthCost(b, chunks[0]) + TotalCost(Absorb(b, chunks[0]), chunks[1..])
  }

  function Flatten(chunks: seq<seq<byte>>): seq<byte> {
    if chunks == [] then [] else chunks[0] + Flatten(chunks[1..])
  }

  function Pow2(k: nat): (p: nat)
    ensures p >= 1
  {
    if k == 0 then 1 else 2 * Pow2(k - 1)
  }

  /** A buffer between two reads: room is left and it is no more than half empty. */
  ghost predicate Between(b: Buf, base: nat) {
    && b.HasRoom()
    && b.size <= Max(base, 2 * |b.got|)
    && exists k: nat :: b.size == base * Pow2(k)
  }

  /** One read keeps room for the next one, so a zero-byte request never happens. */
  lemma AbsorbKeepsRoom(b: Buf, base: nat, data: seq<byte>)
    requires Between(b, base) && 0 < |data| <= b.size - |b.got|
    ensures Between(Absorb(b, data), base)
    ensures Absorb(b, data).size == b.size + GrowthCost(b, data)
  {
    var k: nat :| b.size == base * Pow2(k);
    Doubled(base, k);
    assert Absorb(b, data).size == base * Pow2(if |b.got| + |data| == b.size then k + 1 else k);
  }

  lemma Doubled(base: nat, k: nat)
    ensures base * Pow2(k + 1) == 2 * (base * Pow2(k))
  {
    assert base * (2 * Pow2(k)) == 2 * (base * Pow2(k));
  }

  /** Growth over any run of reads, from any buffer that is between two reads. */
  lemma {:induction false} GrowthFrom(b: Buf, base: nat, chunks: seq<seq<byte>>)
    requires Between(b, base) && Fits(b, chunks)
    ensures Between(AbsorbAll(b, chunks), base)
    ensures AbsorbAll(b, chunks).got == b.got + Flatten(chunks)
    ensures TotalCost(b, chunks) == AbsorbAll(b, chunks).size - b.size
    decreases |chunks|
  {
    if chunks != [] {
      AbsorbKeepsRoom(b, base, chunks[0]);
      GrowthFrom(Absorb(b, chunks[0]), base, chunks[1..]);
      assert b.got + Flatten(chunks) == (b.got + chunks[0]) + Flatten(chunks[1..]);
    }
  }

  /**
   Growth bound: after any reads into a fresh buffer the size is 4096 times a power of
   two, at most max(4096, 2 * off), there is room for another byte, the data is what
   was read, and all growing reallocations together moved fewer than twice the bytes read.
   */
  lemma GrowthBound(chunks: seq<seq<byte>>)
    requires Fits(FRESH, chunks)
    ensures var b, read := AbsorbAll(FRESH, chunks), Flatten(chunks);
            && b.got == read
            && |read| < b.size <= Max(4096, 2 * |read|)
            && (exists k: nat :: b.size == 4096 * Pow2(k))
            && (read != [] ==> TotalCost(FRESH, chunks) < 2 * |read|)
            && (read == [] ==> TotalCost(FRESH, chunks) == 0)
  {
    assert FRESH.size == INITIAL_SIZE * Pow2(0);
    GrowthFrom(FRESH, INITIAL_SIZE, chunks);
    assert FRESH.got + Flatten(chunks) == Flatten(chunks);
  }

  /** The buffer variables that the C functions pass by pointer. */
  class Buffer {
    var block: array<byte>
    var off: nat
    var size: nat

    ghost predicate Valid()
      reads this
    {
      off <= size <= block.Length
    }

    ghost function View(): Buf
      reads this, block
      requires Valid()
    {
      Buf(block[..off], size)
    }

    constructor ()
      ensures Valid() && fresh(block) && View() == FRESH
    {
      block := new byte[INITIAL_SIZE](_ => 0);
      off, size := 0, INITIAL_SIZE;
    }

    /**
     `jse_read_fd_once` after its `read` of `size - off` bytes gave `result`.  An error
     leaves all three variables alone; data is stored at the offset and a full block is
     replaced by one of twice the size; at end of file the block is cut to the data, but
     not to zero bytes.
     */
    method ReadFdOnce(result: ReadResult) returns (bytes: int)
      requires Valid()
      requires result.Got? ==> |result.data| <= size - off
      modifies this, block
      ensures Valid() && (block == old(block) || fresh(block))
      ensures result.Failed? ==> bytes == -1 && View() == old(View())
      ensures result.Got? ==> bytes == |result.data| && View() == Absorb(old(View()), result.data)
    {
      if result.Failed? { return -1; }
      var data := result.data;
      bytes := |data|;
      ghost var before := block[..off];
      if bytes > 0 {
        forall i | 0 <= i < bytes { block[off + i] := data[i]; }
        off := off + bytes;
        assert block[..off] == before + data;
        if off == size {
          size := 2 * size;
          block := Realloc(block, off, size);
        }
      } else {
        size := off;
        if size > 0 {
          block := Realloc(block, size, size);
        }
        assert before == before + data;
      }
    }
  }

  /** `realloc`: a new block that keeps the leading bytes. */
  method Realloc(block: array<byte>, keep: nat, size: nat) returns (moved: array<byte>)
    requires keep <= block.Length && keep <= size
    ensures fresh(moved) && moved.Length == size && moved[..keep] == block[..keep]
  {
    moved := new byte[size](_ => 0);
    forall i | 0 <= i < keep { moved[i] := block[i]; }
  }

  /** A descriptor that still has `rest` to deliver; each read may be short or may fail. */
  class Input {
    var rest: seq<byte>
    var failed: bool

    constructor (content: seq<byte>)
      ensures rest == content && !failed
    {
      rest, failed := content, false;
    }

    method Read(request: nat) returns (result: ReadResult)
      modifies this
      ensures result.Failed? <==> failed
      ensures result.Failed? ==> rest == old(rest)
      ensures result.Got? ==> result.data + rest == old(rest) && |result.data| <= request
      ensures result.Got? && result.data == [] ==> request == 0 || rest == []
    {
      var ok: bool := *;
      failed := !ok;
      if !ok { return Failed; }
      var limit := if |rest| < request then |rest| else request;
      if limit == 0 { return Got([]); }
      var n :| 1 <= n <= limit;
      result := Got(rest[..n]);
      rest := rest[n..];
    }
  }

  /** One pass of the loop: a read of what the buffer has room for, and its bytes into the buffer. */
  method ReadMore(input: Input, buffer: Buffer) returns (bytes: int)
    requires buffer.Valid() && Between(buffer.View(), INITIAL_SIZE)
    modifies input, buffer, buffer.block
    ensures buffer.Valid() && (buffer.block == old(buffer.block) || fresh(buffer.block))
    ensures bytes >= -1 && (bytes == -1 <==> input.failed)
    ensures bytes > 0 ==> Between(buffer.View(), INITIAL_SIZE) && |input.rest| < |old(input.rest)|
    ensures |input.rest| <= |old(input.rest)|
    ensures bytes >= 0 ==> buffer.View().got + input.rest == old(buffer.View().got) + old(input.rest)
    ensures bytes == 0 ==> input.rest == [] && buffer.size == buffer.off
  {
    ghost var before, rest := buffer.View(), input.rest;
    var result := input.Read(buffer.size - buffer.off);
    bytes := buffer.ReadFdOnce(result);
    if bytes > 0 {
      AbsorbKeepsRoom(before, INITIAL_SIZE, result.data);
      assert before.got + rest == (before.got + result.data) + input.rest;
    }
  }

  /**
   `jse_read_fd`: whatever the read sizes, success returns the whole content of the
   descriptor with its exact length, and the only way to fail is a failed read.
   */
  method ReadFd(input: Input) returns (ssize: int, buffer: Buffer)
    modifies input
    ensures buffer.Valid() && fresh(buffer)
    ensures ssize == -1 <==> input.failed
    ensures ssize != -1 ==> ssize == buffer.size == |old(input.rest)|
    ensures ssize != -1 ==> buffer.View().got == old(input.rest) && input.rest == []
  {
    buffer := new Buffer();
    assert FRESH.size == INITIAL_SIZE * Pow2(0);
    var bytes := 1;
    while bytes > 0
      invariant buffer.Valid() && fresh(buffer) && fresh(buffer.block)
      invariant bytes >= -1
      invariant bytes == -1 <==> input.failed && bytes <= 0
      invariant bytes > 0 ==> Between(buffer.View(), INITIAL_SIZE)
      invariant bytes >= 0 ==> buffer.View().got + input.rest == old(input.rest)
      invariant bytes == 0 ==> input.rest == [] && buffer.size == buffer.off
      decreases |input.rest|, bytes
    {
      bytes := ReadMore(input, buffer);
    }
    if bytes == -1 { ssize := -1; } else { ssize := buffer.size; }
  }
}
