/** The transmit buffer: a queue of bytes kept in recycled fixed-size blocks. */
module DynamicBuffers {
  import opened Bytes

  const MAX_BUFFERS := 64

  /** A buffer descriptor: `size` bytes of the block numbered `block`, from `begin` on. */
  datatype Span = Span(block: nat, begin: nat, size: nat)

  /** The contents of all blocks, occupied or not, in the order of the deque. */
  type Image = seq<seq<byte>>

  predicate Sized(bs: Image, blockSize: nat) {
    forall i | 0 <= i < |bs| :: |bs[i]| == blockSize
  }

  // ----- what occupied blocks hold -----

  /** The offsets of a buffer that occupies n blocks. */
  predicate Offsets(n: nat, readOffset: nat, writeOffset: nat, blockSize: nat) {
    if n == 0 then readOffset == writeOffset == 0
    else
      && 0 < writeOffset <= blockSize
      && readOffset < if n == 1 then writeOffset else blockSize
  }

  /** The part of each occupied block that holds data. */
  function Pieces(bs: Image, readOffset: nat, writeOffset: nat, blockSize: nat): (p: seq<seq<byte>>)
    requires Sized(bs, blockSize) && Offsets(|bs|, readOffset, writeOffset, blockSize)
    ensures |p| == |bs|
    ensures forall i | 0 <= i < |p| :: |p[i]| > 0
  {
    seq(|bs|, i requires 0 <= i < |bs| =>
      bs[i][if i == 0 then readOffset else 0..if i == |bs| - 1 then writeOffset else blockSize])
  }

  /** Occupying one more block appends what was stored at its front. */
  lemma PiecesPush(bs: Image, readOffset: nat, b: seq<byte>, writeOffset: nat, blockSize: nat)
    requires Sized(bs, blockSize) && |b| == blockSize && 0 < writeOffset <= blockSize
    requires Offsets(|bs|, readOffset, if bs == [] then 0 else blockSize, blockSize)
    ensures Concat(Pieces(bs + [b], readOffset, writeOffset, blockSize))
         == Concat(Pieces(bs, readOffset, if bs == [] then 0 else blockSize, blockSize)) + b[..writeOffset]
  {
    var p := Pieces(bs, readOffset, if bs == [] then 0 else blockSize, blockSize);
    assert Pieces(bs + [b], readOffset, writeOffset, blockSize) == p + [b[..writeOffset]];
    ConcatAppend(p, [b[..writeOffset]]);
    assert Concat([b[..writeOffset]]) == b[..writeOffset];
  }

  /** Filling more of the last occupied block appends what was stored there. */
  lemma PiecesGrow(bs: Image, readOffset: nat, writeOffset: nat, more: nat, blockSize: nat)
    requires Sized(bs, blockSize) && |bs| > 0 && Offsets(|bs|, readOffset, writeOffset, blockSize)
    requires writeOffset + more <= blockSize
    ensures Concat(Pieces(bs, readOffset, writeOffset + more, blockSize))
         == Concat(Pieces(bs, readOffset, writeOffset, blockSize)) + bs[|bs| - 1][writeOffset..writeOffset + more]
  {
    var n := |bs| - 1;
    var p, q := Pieces(bs, readOffset, writeOffset, blockSize), Pieces(bs, readOffset, writeOffset + more, blockSize);
    assert q[n] == p[n] + bs[n][writeOffset..writeOffset + more];
    assert p == p[..n] + [p[n]] && q == p[..n] + [q[n]];
    ConcatAppend(p[..n], [p[n]]);
    ConcatAppend(p[..n], [q[n]]);
    assert Concat([p[n]]) == p[n] && Concat([q[n]]) == q[n];
  }

  /** Reading further into the first block drops bytes from the front. */
  lemma PiecesAdvance(bs: Image, readOffset: nat, writeOffset: nat, n: nat, blockSize: nat)
    requires Sized(bs, blockSize) && |bs| > 0 && Offsets(|bs|, readOffset, writeOffset, blockSize)
    requires Offsets(|bs|, readOffset + n, writeOffset, blockSize)
    ensures var before := Concat(Pieces(bs, readOffset, writeOffset, blockSize));
            n <= |before| && Concat(Pieces(bs, readOffset + n, writeOffset, blockSize)) == before[n..]
  {
    var p, q := Pieces(bs, readOffset, writeOffset, blockSize), Pieces(bs, readOffset + n, writeOffset, blockSize);
    assert q[0] == p[0][n..] && q[1..] == p[1..];
  }

  /** Reading all of the first block leaves the contents of the others. */
  lemma PiecesPop(bs: Image, readOffset: nat, writeOffset: nat, blockSize: nat)
    requires Sized(bs, blockSize) && |bs| > 0 && Offsets(|bs|, readOffset, writeOffset, blockSize)
    ensures var before := Concat(Pieces(bs, readOffset, writeOffset, blockSize));
            var n := (if |bs| == 1 then writeOffset else blockSize) - readOffset;
            && n <= |before|
            && Offsets(|bs| - 1, 0, if |bs| == 1 then 0 else writeOffset, blockSize)
            && Concat(Pieces(bs[1..], 0, if |bs| == 1 then 0 else writeOffset, blockSize)) == before[n..]
  {
    var p := Pieces(bs, readOffset, writeOffset, blockSize);
    assert Pieces(bs[1..], 0, if |bs| == 1 then 0 else writeOffset, blockSize) == p[1..];
  }

  function Times(n: nat, k: nat): nat {
    if n == 0 then 0 else Times(n - 1, k) + k
  }

  lemma {:induction false} TimesIsProduct(n: nat, k: nat)
    ensures Times(n, k) == n * k
  {
    if n > 0 {
      TimesIsProduct(n - 1, k);
    }
  }

  /** How many bytes the occupied blocks hold. */
  lemma {:induction false} PiecesSize(bs: Image, readOffset: nat, writeOffset: nat, blockSize: nat)
    requires Sized(bs, blockSize) && |bs| > 0 && Offsets(|bs|, readOffset, writeOffset, blockSize)
    ensures |Concat(Pieces(bs, readOffset, writeOffset, blockSize))|
         == Times(|bs| - 1, blockSize) + writeOffset - readOffset
  {
    var n := |bs| - 1;
    if n == 0 {
      assert Pieces(bs, readOffset, writeOffset, blockSize) == [bs[0][readOffset..writeOffset]];
    } else {
      hide Pieces, Concat;
      assert bs == bs[..n] + [bs[n]];
      PiecesPush(bs[..n], readOffset, bs[n], writeOffset, blockSize);
      PiecesSize(bs[..n], readOffset, blockSize, blockSize);
    }
  }

  lemma ConcatPrefix(p: seq<seq<byte>>, i: nat)
    requires i <= |p|
    ensures Concat(p[..i]) <= Concat(p)
    ensures i > 0 && p[0] != [] ==> Concat(p[..i]) != []
    ensures p == [] ==> Concat(p) == []
  {
    assert p == p[..i] + p[i..];
    ConcatAppend(p[..i], p[i..]);
    if i > 0 {
      assert p[..i][0] == p[0];
    }
  }

  // ----- descriptors -----

  predicate InBounds(spans: seq<Span>, bs: Image, blockSize: nat) {
    && Sized(bs, blockSize)
    && forall k | 0 <= k < |spans| ::
         spans[k].block < |bs| && 0 < spans[k].size && spans[k].begin + spans[k].size <= blockSize
  }

  /** The bytes a list of descriptors stands for. */
  function Described(spans: seq<Span>, bs: Image, blockSize: nat): seq<byte>
    requires InBounds(spans, bs, blockSize)
  {
    if spans == [] then []
    else
      bs[spans[0].block][spans[0].begin..spans[0].begin + spans[0].size] + Described(spans[1..], bs, blockSize)
  }

  lemma {:induction false} DescribedIsConcat(spans: seq<Span>, bs: Image, blockSize: nat, p: seq<seq<byte>>)
    requires InBounds(spans, bs, blockSize) && |p| == |spans|
    requires forall k | 0 <= k < |p| ::
               p[k] == bs[spans[k].block][spans[k].begin..spans[k].begin + spans[k].size]
    ensures Described(spans, bs, blockSize) == Concat(p)
  {
    if spans != [] {
      DescribedIsConcat(spans[1..], bs, blockSize, p[1..]);
    }
  }

  /** The number of bytes a list of descriptors covers. */
  function Total(spans: seq<Span>): nat {
    if spans == [] then 0 else spans[0].size + Total(spans[1..])
  }

  lemma {:induction false} DescribedSize(spans: seq<Span>, bs: Image, blockSize: nat)
    requires InBounds(spans, bs, blockSize)
    ensures |Described(spans, bs, blockSize)| == Total(spans)
  {
    if spans != [] {
      DescribedSize(spans[1..], bs, blockSize);
    }
  }

  /** Descriptors of consecutive blocks from block i on; all but the last run to the end of their block. */
  predicate Laid(spans: seq<Span>, i: nat, begin: nat, blockSize: nat) {
    spans == [] || (
      && spans[0].block == i && spans[0].begin == begin
      && 0 < spans[0].size && begin + spans[0].size <= blockSize
      && (|spans| > 1 ==> begin + spans[0].size == blockSize)
      && Laid(spans[1..], i + 1, 0, blockSize))
  }

  /** Whether the last descriptor runs to the end of its block too. */
  predicate Filled(spans: seq<Span>, blockSize: nat) {
    spans != [] ==> spans[|spans| - 1].begin + spans[|spans| - 1].size == blockSize
  }

  lemma {:induction false} LaidPush(spans: seq<Span>, i: nat, begin: nat, size: nat, blockSize: nat)
    requires Laid(spans, i, begin, blockSize) && Filled(spans, blockSize)
    requires 0 < size && (if spans == [] then begin else 0) + size <= blockSize
    ensures Laid(spans + [Span(i + |spans|, if spans == [] then begin else 0, size)], i, begin, blockSize)
    ensures Total(spans + [Span(i + |spans|, if spans == [] then begin else 0, size)]) == Total(spans) + size
  {
    var last := Span(i + |spans|, if spans == [] then begin else 0, size);
    if spans == [] {
      assert [last][1..] == [];
    } else {
      assert (spans + [last])[1..] == spans[1..] + [last];
      LaidPush(spans[1..], i + 1, 0, size, blockSize);
    }
  }

  lemma {:induction false} LaidInBounds(spans: seq<Span>, i: nat, begin: nat, bs: Image, blockSize: nat)
    requires Laid(spans, i, begin, blockSize) && Sized(bs, blockSize) && (spans == [] || i + |spans| <= |bs|)
    ensures InBounds(spans, bs, blockSize)
  {
    if spans != [] {
      LaidInBounds(spans[1..], i + 1, 0, bs, blockSize);
      assert forall k | 1 <= k < |spans| :: spans[k] == spans[1..][k - 1];
    }
  }

  lemma {:induction false} TimesAdd(m: nat, n: nat, k: nat)
    ensures Times(m + n, k) == Times(m, k) + Times(n, k)
  {
    if n > 0 {
      TimesAdd(m, n - 1, k);
    }
  }

  /** How much consecutive blocks have room for, and do hold when all of them are filled. */
  lemma {:induction false} LaidTotal(spans: seq<Span>, i: nat, begin: nat, blockSize: nat)
    requires Laid(spans, i, begin, blockSize) && spans != []
    ensures Total(spans) + begin <= Times(|spans|, blockSize)
    ensures Filled(spans, blockSize) ==> Total(spans) + begin == Times(|spans|, blockSize)
    decreases |spans|
  {
    if |spans| > 1 {
      assert spans[1..][|spans| - 2] == spans[|spans| - 1];
      LaidTotal(spans[1..], i + 1, 0, blockSize);
    } else {
      assert Total(spans[1..]) == 0 && Times(1, blockSize) == Times(0, blockSize) + blockSize;
    }
  }

  // ----- free space -----

  /** The n bytes that follow `begin` in block i and go on at the front of the next blocks. */
  function FreeBytes(bs: Image, i: nat, begin: nat, blockSize: nat, n: nat): seq<byte>
    requires Sized(bs, blockSize) && begin <= blockSize
    decreases |bs| - i
  {
    if n == 0 || i >= |bs| then []
    else
      var m := Min(n, blockSize - begin);
      bs[i][begin..begin + m] + FreeBytes(bs, i + 1, 0, blockSize, n - m)
  }

  /** What is stored through descriptors is what a commit of its size will find. */
  lemma {:induction false} FreeIsDescribed(spans: seq<Span>, i: nat, begin: nat, bs: Image, blockSize: nat)
    requires Laid(spans, i, begin, blockSize) && InBounds(spans, bs, blockSize) && begin <= blockSize
    ensures FreeBytes(bs, i, begin, blockSize, Total(spans)) == Described(spans, bs, blockSize)
    decreases |spans|
  {
    if spans != [] {
      assert |spans| == 1 ==> Total(spans[1..]) == 0;
      LaidBounds(spans, i, begin, bs, blockSize);
      FreeIsDescribed(spans[1..], i + 1, 0, bs, blockSize);
      hide FreeBytes, Laid, InBounds;
      FreeBytesStep(bs, i, begin, blockSize, Total(spans));
    }
  }

  lemma LaidBounds(spans: seq<Span>, i: nat, begin: nat, bs: Image, blockSize: nat)
    requires Laid(spans, i, begin, blockSize) && InBounds(spans, bs, blockSize) && spans != []
    ensures Laid(spans[1..], i + 1, 0, blockSize) && InBounds(spans[1..], bs, blockSize) && i < |bs|
    ensures spans[0] == Span(i, begin, Min(Total(spans), blockSize - begin))
  {
    assert |spans| == 1 ==> Total(spans[1..]) == 0;
  }

  lemma FreeBytesStep(bs: Image, i: nat, begin: nat, blockSize: nat, n: nat)
    requires Sized(bs, blockSize) && i < |bs| && begin <= blockSize
    ensures var m := Min(n, blockSize - begin);
            FreeBytes(bs, i, begin, blockSize, n) == bs[i][begin..begin + m] + FreeBytes(bs, i + 1, 0, blockSize, n - m)
  {
    assert n == 0 ==> FreeBytes(bs, i + 1, 0, blockSize, 0) == [];
  }

  /** How many blocks n bytes reach into, when the first of them starts at `begin`. */
  function BlockCount(begin: nat, n: nat, blockSize: nat): nat
    requires n == 0 || begin < blockSize
    decreases n
  {
    if n == 0 then 0 else 1 + BlockCount(0, n - Min(n, blockSize - begin), blockSize)
  }

  lemma {:induction false} LaidCount(spans: seq<Span>, i: nat, begin: nat, blockSize: nat)
    requires Laid(spans, i, begin, blockSize)
    ensures spans == [] || begin < blockSize
    ensures |spans| == BlockCount(begin, Total(spans), blockSize)
    decreases |spans|
  {
    if spans != [] {
      LaidCount(spans[1..], i + 1, 0, blockSize);
      assert |spans| == 1 ==> Total(spans[1..]) == 0;
    }
  }

  /** Storing bytes where a descriptor says. */
  function Put(bs: Image, s: Span, chunk: seq<byte>): Image
    requires s.block < |bs| && s.begin + s.size <= |bs[s.block]| && |chunk| == s.size
  {
    bs[s.block := bs[s.block][..s.begin] + chunk + bs[s.block][s.begin + s.size..]]
  }

  function Copied(bs: Image, spans: seq<Span>, data: seq<byte>, blockSize: nat): (r: Image)
    requires InBounds(spans, bs, blockSize) && Total(spans) <= |data|
    ensures |r| == |bs| && Sized(r, blockSize)
    decreases |spans|
  {
    if spans == [] then bs
    else
      var size := spans[0].size;
      assert forall k | 0 <= k < |spans[1..]| :: spans[1..][k] == spans[k + 1];
      Copied(Put(bs, spans[0], data[..size]), spans[1..], data[size..], blockSize)
  }

  /** Copying through laid descriptors stores the data, and touches nothing in front of them. */
  lemma {:induction false} CopiedDescribed(bs: Image, spans: seq<Span>, data: seq<byte>,
                                           i: nat, begin: nat, blockSize: nat)
    requires Laid(spans, i, begin, blockSize) && InBounds(spans, bs, blockSize) && Total(spans) <= |data|
    ensures var r := Copied(bs, spans, data, blockSize);
            && (forall j | 0 <= j < |bs| && j < i :: r[j] == bs[j])
            && (i < |bs| && begin <= blockSize ==> r[i][..begin] == bs[i][..begin])
            && InBounds(spans, r, blockSize)
            && Described(spans, r, blockSize) == data[..Total(spans)]
    decreases |spans|
  {
    if spans != [] {
      var size := spans[0].size;
      var next := Put(bs, spans[0], data[..size]);
      assert forall k | 0 <= k < |spans[1..]| :: spans[1..][k] == spans[k + 1];
      CopiedDescribed(next, spans[1..], data[size..], i + 1, 0, blockSize);
      var r := Copied(bs, spans, data, blockSize);
      assert r == Copied(next, spans[1..], data[size..], blockSize);
      hide Copied, Laid;
      assert r[i] == next[i];
      assert r[i][begin..begin + size] == data[..size];
      assert data[..Total(spans)] == data[..size] + data[size..][..Total(spans[1..])];
    }
  }

  /** What occupied blocks hold depends only on their occupied part. */
  lemma PiecesSame(bs: Image, bs': Image, readOffset: nat, writeOffset: nat, blockSize: nat)
    requires |bs| == |bs'| && Sized(bs, blockSize) && Sized(bs', blockSize)
    requires Offsets(|bs|, readOffset, writeOffset, blockSize)
    requires forall j | 0 <= j < |bs| - 1 :: bs[j] == bs'[j]
    requires bs != [] ==> bs[|bs| - 1][..writeOffset] == bs'[|bs| - 1][..writeOffset]
    ensures Pieces(bs, readOffset, writeOffset, blockSize) == Pieces(bs', readOffset, writeOffset, blockSize)
  {
    var p, p' := Pieces(bs, readOffset, writeOffset, blockSize), Pieces(bs', readOffset, writeOffset, blockSize);
    forall j | 0 <= j < |bs| ensures p[j] == p'[j] {
      if j == |bs| - 1 {
        var begin := if j == 0 then readOffset else 0;
        assert p[j] == bs[j][..writeOffset][begin..] && p'[j] == bs'[j][..writeOffset][begin..];
      }
    }
  }

  lemma FirstPart(parts: seq<seq<byte>>)
    ensures parts != [] ==> |Concat(parts)| >= |parts[0]|
  {
  }

  class DynamicBuffer {
    const blockSize: nat
    const maxBlocks: nat
    var blocks: seq<array<byte>>
    var used: nat
    var readOffset: nat
    var writeOffset: nat
    var size: nat
    /** What the blocks hold. */
    ghost var image: Image
    /** The largest number of blocks ever occupied at once. */
    ghost var peak: nat

    /** Blocks are separate objects of one size, and hold what the image says. */
    ghost predicate Stored()
      reads this`blocks, this`image, blocks
    {
      && |image| == |blocks|
      && (forall i | 0 <= i < |blocks| :: blocks[i].Length == blockSize && blocks[i][..] == image[i])
      && (forall i, j | 0 <= i < j < |blocks| :: blocks[i] != blocks[j])
    }

    /** The occupied blocks come first, and the offsets say which part of them holds data. */
    ghost predicate Shape()
      reads this`image, this`used, this`readOffset, this`writeOffset
    {
      && Sized(image, blockSize)
      && used <= |image| <= maxBlocks
      && Offsets(used, readOffset, writeOffset, blockSize)
      && (maxBlocks > 0 ==> blockSize > 0)
    }

    ghost function Contents(): seq<byte>
      reads this`image, this`used, this`readOffset, this`writeOffset
      requires Shape()
    {
      Concat(Pieces(image[..used], readOffset, writeOffset, blockSize))
    }

    /** Every allocated block was once needed: allocation never exceeds the largest backlog so far. */
    ghost predicate Valid()
      reads this, blocks
    {
      Stored() && Shape() && size == |Contents()| && |blocks| == peak
    }

    constructor (maxSize: nat, desiredBlockSize: nat)
      ensures Valid() && Contents() == [] && blocks == [] && peak == 0
      ensures blockSize == Min(desiredBlockSize, maxSize)
      ensures blockSize > 0 ==> maxBlocks * blockSize <= maxSize < (maxBlocks + 1) * blockSize
      ensures blockSize == 0 ==> maxBlocks == 0
    {
      blockSize := Min(desiredBlockSize, maxSize);
      maxBlocks := if Min(desiredBlockSize, maxSize) > 0 then maxSize / Min(desiredBlockSize, maxSize) else 0;
      blocks, used, readOffset, writeOffset, size := [], 0, 0, 0, 0;
      image, peak := [], 0;
    }

    predicate Empty()
      reads this
    {
      size == 0
    }

    /** Describes the data, oldest first: one descriptor a block, and no more than MAX_BUFFERS. */
    method Data() returns (gather: seq<Span>)
      requires Valid()
      ensures InBounds(gather, image, blockSize) && |gather| == if used < 64 then used else 64
      ensures forall k | 0 <= k < |gather| :: gather[k].block == k
      ensures Described(gather, image, blockSize) <= Contents()
      ensures used <= MAX_BUFFERS ==> Described(gather, image, blockSize) == Contents()
      ensures Contents() != [] ==> Described(gather, image, blockSize) != []
    {
      hide Concat, Described, Stored;
      gather := [];
      ghost var p := Pieces(image[..used], readOffset, writeOffset, blockSize);
      var i := 0;
      while i < used && |gather| < MAX_BUFFERS
        invariant i == |gather| <= Min(used, MAX_BUFFERS)
        invariant InBounds(gather, image, blockSize)
        invariant forall k | 0 <= k < |gather| ::
                    && gather[k].block == k
                    && p[k] == image[k][gather[k].begin..gather[k].begin + gather[k].size]
      {
        var begin := if i > 0 then 0 else readOffset;
        var end := if i == used - 1 then writeOffset else blockSize;
        if end > begin {
          gather := gather + [Span(i, begin, end - begin)];
        }
        i := i + 1;
      }
      DescribedIsConcat(gather, image, blockSize, p[..i]);
      ConcatPrefix(p, i);
      assert i == used ==> p[..i] == p;
    }

    /** Discards bytes from the front; blocks emptied go to the back, to be filled again. */
    method Consume(n: nat)
      requires Valid()
      modifies this
      ensures Valid() && (forall b | b in blocks :: b in old(blocks)) && peak == old(peak)
      ensures Contents() == old(Contents()[Min(n, size)..])
      ensures size + readOffset <= old(size + readOffset)
    {
      hide Pieces, Concat, Stored;
      var left := Min(n, size);
      ghost var contents, gone := Contents(), 0;
      assert contents[0..] == contents;
      size := size - left;
      while left > 0
        invariant Stored() && Shape() && |blocks| == peak == old(peak) && (forall b | b in blocks :: b in old(blocks))
        invariant gone + left == old(Min(n, size)) && size == |contents| - gone - left
        invariant Contents() == contents[gone..]
        invariant size + left + readOffset <= old(size + readOffset)
      {
        var consumed := ConsumeFromFront(left);
        left := left - consumed;
        gone := gone + consumed;
      }
    }

    /** One turn of the loop in Consume: reads on in the first block, and recycles it at its end. */
    method ConsumeFromFront(left: nat) returns (consumed: nat)
      requires Stored() && Shape() && 0 < left <= |Contents()|
      modifies this
      ensures Stored() && Shape() && (forall b | b in blocks :: b in old(blocks)) && |blocks| == old(|blocks|)
      ensures size == old(size) && peak == old(peak)
      ensures 0 < consumed <= left && Contents() == old(Contents()[consumed..])
      ensures readOffset <= old(readOffset) + consumed
    {
      ghost var bs := image[..used];
      NothingInNoBlocks();
      hide Pieces, Concat, Stored;
      var end := if used == 1 then writeOffset else blockSize;
      consumed := Min(left, end - readOffset);
      if readOffset + consumed == end {
        PiecesPop(bs, readOffset, writeOffset, blockSize);
      } else {
        PiecesAdvance(bs, readOffset, writeOffset, consumed, blockSize);
      }
      readOffset := readOffset + consumed;
      if readOffset == end {
        RecycleFrontBlock();
        assert image[..used] == bs[1..];
        hide Shape;
      }
    }

    /** An empty buffer has all its room. */
    lemma EmptyUsesNone()
      requires Shape() && Contents() == []
      ensures used == readOffset == 0
    {
      var p := Pieces(image[..used], readOffset, writeOffset, blockSize);
      FirstPart(p);
    }

    lemma NothingInNoBlocks()
      requires Shape()
      ensures used == 0 ==> Contents() == []
    {
    }

    method RecycleFrontBlock()
      requires Stored() && Sized(image, blockSize) && 0 < used <= |blocks|
      modifies this
      ensures Stored() && Sized(image, blockSize) && (forall b | b in blocks :: b in old(blocks))
      ensures blocks == old(blocks[1..] + [blocks[0]]) && image == old(image[1..] + [image[0]])
      ensures used == old(used) - 1 && readOffset == 0
      ensures writeOffset == if used == 0 then 0 else old(writeOffset)
      ensures size == old(size) && peak == old(peak)
    {
      blocks := blocks[1..] + [blocks[0]];
      image := image[1..] + [image[0]];
      used := used - 1;
      readOffset := 0;
      if used == 0 {
        writeOffset := 0;
      }
    }

    /** The block the next byte goes to, and the place in it. */
    function NextBlock(): nat
      reads this`image, this`used, this`readOffset, this`writeOffset
      requires Offsets(used, readOffset, writeOffset, blockSize)
    {
      if used > 0 && writeOffset < blockSize then used - 1 else used
    }

    function NextBegin(): nat
      reads this`image, this`used, this`readOffset, this`writeOffset
      requires Offsets(used, readOffset, writeOffset, blockSize)
    {
      if used > 0 && writeOffset < blockSize then writeOffset else 0
    }

    /** Finds room for n bytes or as many as fit, allocating blocks only as they are needed. */
    method Prepare(n: nat) returns (scatter: seq<Span>)
      requires Stored() && Shape()
      modifies this`blocks, this`image
      ensures Stored() && Shape() && old(image) <= image
      ensures old(blocks) <= blocks && forall k | old(|blocks|) <= k < |blocks| :: fresh(blocks[k])
      ensures Laid(scatter, NextBlock(), NextBegin(), blockSize)
      ensures |blocks| == Max(old(|blocks|), NextBlock() + |scatter|)
      ensures Total(scatter) <= n
      ensures Total(scatter) < n ==> NextBlock() + |scatter| == maxBlocks && Filled(scatter, blockSize)
    {
      scatter := [];
      var left: nat := n;
      // Here NextBlock() is the last occupied block; the loop goes on behind it.
      if left > 0 && used > 0 && writeOffset < blockSize {
        var available := Min(left, blockSize - writeOffset);
        LaidPush(scatter, NextBlock(), NextBegin(), available, blockSize);
        scatter := scatter + [Span(used - 1, writeOffset, available)];
        left := left - available;
      }
      hide Laid, Total, Stored;
      while left > 0
        invariant Stored() && Shape() && old(image) <= image
        invariant old(blocks) <= blocks && forall k | old(|blocks|) <= k < |blocks| :: fresh(blocks[k])
        invariant Laid(scatter, NextBlock(), NextBegin(), blockSize)
        invariant left > 0 ==> Filled(scatter, blockSize) && used <= NextBlock() + |scatter|
        invariant |blocks| == Max(old(|blocks|), NextBlock() + |scatter|)
        invariant Total(scatter) == n - left
        decreases left
      {
        if NextBlock() + |scatter| == |blocks| {
          if |blocks| == maxBlocks {
            break;
          }
          AllocateBlock();
        }
        var available := Min(left, blockSize);
        LaidPush(scatter, NextBlock(), NextBegin(), available, blockSize);
        scatter := scatter + [Span(NextBlock() + |scatter|, 0, available)];
        left := left - available;
      }
    }

    method AllocateBlock()
      requires Stored() && Shape() && |blocks| < maxBlocks
      modifies this`blocks, this`image
      ensures Stored() && Shape() && |blocks| == old(|blocks|) + 1
      ensures old(image) <= image && old(blocks) <= blocks && fresh(blocks[|blocks| - 1])
    {
      var block := new byte[blockSize];
      blocks := blocks + [block];
      image := image + [block[..]];
    }

    /** Copies data into the space described, as much as there is room for. */
    method BufferCopy(spans: seq<Span>, data: seq<byte>)
      requires Stored() && InBounds(spans, image, blockSize) && Total(spans) <= |data|
      modifies this`image, blocks
      ensures Stored() && image == Copied(old(image), spans, data, blockSize)
    {
      var k, at: nat := 0, 0;
      assert spans[0..] == spans && data[0..] == data;
      while k < |spans|
        invariant k <= |spans| && at <= |data| && Total(spans[k..]) <= |data| - at
        invariant Stored() && InBounds(spans[k..], image, blockSize)
        invariant Copied(image, spans[k..], data[at..], blockSize) == Copied(old(image), spans, data, blockSize)
      {
        var s := spans[k];
        assert spans[k..][0] == s && spans[k..][1..] == spans[k + 1..];
        assert data[at..][..s.size] == data[at..at + s.size] && data[at..][s.size..] == data[at + s.size..];
        StoreSpan(s, data[at..at + s.size]);
        k, at := k + 1, at + s.size;
      }
    }

    method StoreSpan(s: Span, chunk: seq<byte>)
      requires Stored() && s.block < |blocks| && s.begin + s.size <= blockSize && |chunk| == s.size
      modifies this`image, blocks[s.block]
      ensures Stored() && image == Put(old(image), s, chunk)
    {
      var block := blocks[s.block];
      forall i | 0 <= i < s.size {
        block[s.begin + i] := chunk[i];
      }
      image := image[s.block := block[..]];
      assert block[..] == old(image)[s.block][..s.begin] + chunk + old(image)[s.block][s.begin + s.size..];
    }

    /** The next n bytes of free space, in the order commit() takes them. */
    ghost function Free(n: nat): seq<byte>
      reads this`image, this`used, this`readOffset, this`writeOffset
      requires Shape()
    {
      FreeBytes(image, NextBlock(), NextBegin(), blockSize, n)
    }

    /** The next n bytes of the blocks that are not occupied. */
    ghost function Unoccupied(n: nat): seq<byte>
      reads this`image, this`used, this`readOffset, this`writeOffset
      requires Shape()
    {
      FreeBytes(image, used, 0, blockSize, n)
    }

    /** Makes the next n bytes of free space part of the contents. */
    method Commit(n: nat)
      requires Shape() && |Free(n)| == n && (n > 0 ==> NextBegin() < blockSize)
      modifies this`size, this`used, this`writeOffset
      ensures Shape() && size == old(size) + n
      ensures Contents() == old(Contents() + Free(n))
      ensures used == if n == 0 then old(used) else old(NextBlock() + BlockCount(NextBegin(), n, blockSize))
    {
      hide Contents, Unoccupied, Free, BlockCount;
      NoTail(n);
      size := size + n;
      var left: nat := n;
      // Free(n) starts in the last occupied block exactly when that has a tail.
      if used > 0 && writeOffset < blockSize {
        var committed := Min(left, blockSize - writeOffset);
        GrowTail(left, committed);
        left := left - committed;
      }
      while left > 0
        invariant Shape() && size == old(size) + n && |Unoccupied(left)| == left
        invariant Contents() + Unoccupied(left) == old(Contents() + Free(n))
        invariant left > 0 ==> blockSize > 0 && (used == 0 || writeOffset == blockSize)
        invariant used + BlockCount(0, left, blockSize)
               == if n == 0 then old(used) else old(NextBlock() + BlockCount(NextBegin(), n, blockSize))
      {
        OccupyBlock(left);
        left := left - writeOffset;
      }
      assert Unoccupied(left) == [];
    }

    /** Free space starts with a fresh block, unless the last occupied one has a tail. */
    lemma NoTail(n: nat)
      requires Shape()
      ensures BlockCount(0, 0, blockSize) == 0 && Unoccupied(0) == []
      ensures NextBlock() == used ==> Free(n) == Unoccupied(n)
      ensures n == 0 ==> Free(n) == []
    {
    }

    method GrowTail(left: nat, committed: nat)
      requires Shape() && used > 0 && writeOffset < blockSize && |Free(left)| == left
      requires committed == Min(left, blockSize - writeOffset)
      modifies this`writeOffset
      ensures Shape() && writeOffset == old(writeOffset) + committed
      ensures |Unoccupied(left - committed)| == left - committed
      ensures left > 0 ==> BlockCount(old(writeOffset), left, blockSize) == 1 + BlockCount(0, left - committed, blockSize)
      ensures Contents() + Unoccupied(left - committed) == old(Contents() + Free(left))
    {
      TailGrows(left, committed);
      hide Pieces, Concat, FreeBytes;
      writeOffset := writeOffset + committed;
    }

    lemma TailGrows(left: nat, committed: nat)
      requires Shape() && used > 0 && writeOffset < blockSize && |Free(left)| == left
      requires committed == Min(left, blockSize - writeOffset)
      ensures |Unoccupied(left - committed)| == left - committed
      ensures Concat(Pieces(image[..used], readOffset, writeOffset + committed, blockSize)) + Unoccupied(left - committed)
           == Contents() + Free(left)
    {
      var i, grown := used - 1, image[used - 1][writeOffset..writeOffset + committed];
      FreeBytesStep(image, i, writeOffset, blockSize, left);
      hide FreeBytes, Concat, Pieces;
      assert Free(left) == grown + Unoccupied(left - committed);
      PiecesGrow(image[..used], readOffset, writeOffset, committed, blockSize);
      assert image[..used][i] == image[i];
      Regroup(Contents(), grown, Unoccupied(left - committed));
    }

    static lemma Regroup(a: seq<byte>, b: seq<byte>, c: seq<byte>)
      ensures (a + b) + c == a + (b + c)
    {
    }

    /** One turn of the loop in Commit: occupies one more block. */
    method OccupyBlock(left: nat)
      requires Shape() && left > 0 && |Unoccupied(left)| == left
      requires used == 0 || writeOffset == blockSize
      modifies this`used, this`writeOffset
      ensures Shape() && writeOffset == Min(left, blockSize) > 0 && used == old(used) + 1
      ensures |Unoccupied(left - writeOffset)| == left - writeOffset
      ensures BlockCount(0, left, blockSize) == 1 + BlockCount(0, left - writeOffset, blockSize)
      ensures Contents() + Unoccupied(left - writeOffset) == old(Contents() + Unoccupied(left))
    {
      ghost var m := Min(left, blockSize);
      FirstUnoccupied(left);
      ContentsWithBlock(m);
      ghost var contents, filled, rest := Contents(), image[used][..m], FreeBytes(image, used + 1, 0, blockSize, left - m);
      hide Pieces, Concat, FreeBytes;
      used := used + 1;
      writeOffset := Min(left, blockSize);
      assert Contents() == contents + filled && Unoccupied(left - m) == rest;
      hide Contents, Unoccupied;
      Regroup(contents, filled, rest);
    }

    lemma FirstUnoccupied(left: nat)
      requires Shape() && left > 0 && |Unoccupied(left)| == left
      ensures blockSize > 0 && used < |image|
      ensures var m := Min(left, blockSize);
              Unoccupied(left) == image[used][..m] + FreeBytes(image, used + 1, 0, blockSize, left - m)
    {
      FreeBytesStep(image, used, 0, blockSize, left);
    }

    lemma ContentsWithBlock(m: nat)
      requires Shape() && used < |image| && 0 < m <= blockSize && (used == 0 || writeOffset == blockSize)
      ensures Concat(Pieces(image[..used + 1], readOffset, m, blockSize)) == Contents() + image[used][..m]
    {
      PiecesPush(image[..used], readOffset, image[used], m, blockSize);
      assert image[..used + 1] == image[..used] + [image[used]];
    }

    /** The bytes the limit still leaves room for: what was read from the first block is not room yet. */
    ghost function Room(): int
      reads this`image, this`used, this`readOffset, this`writeOffset
      requires Shape()
    {
      Times(maxBlocks, blockSize) - |Contents()| - readOffset
    }

    lemma RoomIsFreeBlocks()
      requires Shape()
      ensures Room() + NextBegin() == Times(maxBlocks - NextBlock(), blockSize)
    {
      NothingInNoBlocks();
      TimesAdd(NextBlock(), maxBlocks - NextBlock(), blockSize);
      if used > 0 {
        PiecesSize(image[..used], readOffset, writeOffset, blockSize);
      }
    }

    /** The descriptors found cover all the room there is, or all that was asked for. */
    lemma RoomFound(spans: seq<Span>, n: nat)
      requires Shape() && Laid(spans, NextBlock(), NextBegin(), blockSize) && NextBlock() + |spans| <= maxBlocks
      requires Total(spans) <= n
      requires Total(spans) < n ==> NextBlock() + |spans| == maxBlocks && Filled(spans, blockSize)
      ensures 0 <= Room() && Total(spans) == Min(n, Room())
    {
      RoomIsFreeBlocks();
      TimesAdd(|spans|, maxBlocks - NextBlock() - |spans|, blockSize);
      if spans != [] {
        LaidTotal(spans, NextBlock(), NextBegin(), blockSize);
      }
      assert NextBlock() < maxBlocks ==> Times(maxBlocks - NextBlock(), blockSize) >= blockSize;
    }

    /** Copies data into reserved space, which is not part of the contents yet. */
    method Fill(spans: seq<Span>, data: seq<byte>)
      requires Stored() && Shape() && Laid(spans, NextBlock(), NextBegin(), blockSize)
      requires NextBlock() + |spans| <= |blocks| && Total(spans) <= |data|
      modifies this`image, blocks
      ensures Stored() && Shape() && Contents() == old(Contents())
      ensures Free(Total(spans)) == data[..Total(spans)]
    {
      ghost var bs, i, begin := image, NextBlock(), NextBegin();
      LaidInBounds(spans, i, begin, image, blockSize);
      CopiedDescribed(bs, spans, data, i, begin, blockSize);
      BufferCopy(spans, data);
      assert i < used ==> bs[i][..begin] == image[i][..begin];
      PiecesSame(bs[..used], image[..used], readOffset, writeOffset, blockSize);
      FreeIsDescribed(spans, i, begin, image, blockSize);
    }

    /** Appends as much of the data as fits, and says how much that was. */
    method Write(data: seq<byte>) returns (n: nat)
      requires Valid()
      modifies this, blocks
      ensures Valid() && forall b | b in blocks :: b in old(blocks) || fresh(b)
      ensures n <= |data| && Contents() == old(Contents()) + data[..n]
      ensures 0 <= maxBlocks * blockSize - old(size) - old(readOffset)
      ensures n == Min(|data|, maxBlocks * blockSize - old(size) - old(readOffset))
      ensures n < |data| ==> maxBlocks * blockSize < |Contents()| + Max(1, blockSize)
      ensures readOffset == old(readOffset) && peak == Max(old(peak), used)
    {
      hide Concat, Pieces, Laid, Total, Filled, FreeBytes;
      var spans := Prepare(|data|);
      assert image[..used] == old(image)[..used];
      RoomFound(spans, |data|);
      TimesIsProduct(maxBlocks, blockSize);
      n := Append(spans, data);
      peak := Max(peak, used);
    }

    method Append(spans: seq<Span>, data: seq<byte>) returns (n: nat)
      requires Stored() && Shape() && Laid(spans, NextBlock(), NextBegin(), blockSize)
      requires NextBlock() + |spans| <= |blocks| && Total(spans) <= |data|
      modifies this`image, this`size, this`used, this`writeOffset, blocks
      ensures Stored() && Shape() && n == Total(spans) && size == old(size) + n
      ensures Contents() == old(Contents()) + data[..n]
      ensures used == if spans == [] then old(used) else old(NextBlock()) + |spans|
    {
      hide Contents, Laid, Filled, Stored, Free;
      LaidCount(spans, NextBlock(), NextBegin(), blockSize);
      n := Total(spans);
      Fill(spans, data);
      Commit(n);
    }
  }
}
