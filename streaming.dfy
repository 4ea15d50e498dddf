/**
 * The three transfer loops of the driver.  Each fills the fixed 3000-byte
 * scratch buffer xbuf from plane 1 or 2 with a running bufindex and hands it
 * to the transport whenever it is full or the transfer ends; a method returns
 * the payloads of those IO.data(xbuf, n) calls in order.  They only read the
 * plane, so the caller records the returned chunks on the transport.
 */
module Streaming {
  import opened Geometry
  import opened Protocol
  import opened Window

  /** Appending one chunk to a sequence of chunks. */
  lemma FlattenSnoc(cs: seq<seq<bv8>>, c: seq<bv8>)
    ensures Flatten(cs + [c]) == Flatten(cs) + c
  {
    FlattenAppend(cs, [c]);
    assert Flatten([c]) == c + Flatten([]);
  }

  /** Full chunks followed by an unfinished one are well chunked. */
  lemma FullThenLast(cs: seq<seq<bv8>>, c: seq<bv8>)
    requires AllFull(cs) && 1 <= |c| <= SPI_CHUNK
    ensures WellChunked(cs + [c])
  {
  }

  /**
   * The step both window loops repeat: put one byte into xbuf and hand xbuf
   * to the transport once it holds SPI_CHUNK bytes.
   */
  method PushByte(xbuf: array<bv8>, bufIndex: nat, chunks: seq<seq<bv8>>, v: bv8)
      returns (newIndex: nat, newChunks: seq<seq<bv8>>)
    requires xbuf.Length == SPI_CHUNK && bufIndex < SPI_CHUNK && AllFull(chunks)
    modifies xbuf
    ensures newIndex < SPI_CHUNK && AllFull(newChunks)
    ensures Flatten(newChunks) + xbuf[..newIndex] == Flatten(chunks) + old(xbuf[..bufIndex]) + [v]
  {
    ghost var pending := xbuf[..bufIndex];
    xbuf[bufIndex] := v;
    newIndex := bufIndex + 1;
    newChunks := chunks;
    assert xbuf[..newIndex] == pending + [v];
    if newIndex == SPI_CHUNK {
      FlattenSnoc(chunks, xbuf[..newIndex]);
      newChunks := chunks + [xbuf[..newIndex]];
      newIndex := 0;
      assert xbuf[..newIndex] == [];
    }
  }

  /**
   * update()'s loop over one whole plane: flush when xbuf is full or at the
   * last byte.  The chunks are the plane split into SPI_CHUNK-sized pieces.
   */
  method StreamPlane(plane: array<bv8>) returns (chunks: seq<seq<bv8>>)
    requires plane.Length == BUFFER_SIZE
    ensures chunks == Chunks(plane[..])
  {
    var bufferLength := BUFFER_SIZE;
    var xbuf := new bv8[SPI_CHUNK];
    var bufindex := 0;
    chunks := [];
    var i := 0;
    while i < bufferLength
      invariant 0 <= i <= bufferLength
      invariant 0 <= bufindex < SPI_CHUNK
      invariant Flatten(chunks) + xbuf[..bufindex] == plane[..i]
      invariant i < bufferLength ==> AllFull(chunks)
      invariant i == bufferLength ==> bufindex == 0 && WellChunked(chunks)
    {
      xbuf[bufindex] := plane[i];
      bufindex := bufindex + 1;
      assert Flatten(chunks) + xbuf[..bufindex] == plane[..i + 1];
      if bufindex == SPI_CHUNK || i == bufferLength - 1 {
        FlattenSnoc(chunks, xbuf[..bufindex]);
        FullThenLast(chunks, xbuf[..bufindex]);
        chunks := chunks + [xbuf[..bufindex]];
        bufindex := 0;
      }
      i := i + 1;
    }
    assert plane[..bufferLength] == plane[..];
    ChunksOfFlatten(chunks);
  }

  /**
   * The inner loop of both window transfers: byte columns [xs, xe) of one
   * row, skipping any index past the plane.
   */
  method StreamRow(plane: array<bv8>, xbuf: array<bv8>, bufIndex: nat, chunks: seq<seq<bv8>>, row: nat, xs: nat, xe: int)
      returns (newIndex: nat, newChunks: seq<seq<bv8>>)
    requires plane.Length == BUFFER_SIZE && xbuf.Length == SPI_CHUNK && plane != xbuf
    requires bufIndex < SPI_CHUNK && AllFull(chunks)
    modifies xbuf
    ensures newIndex < SPI_CHUNK && AllFull(newChunks)
    ensures Flatten(newChunks) + xbuf[..newIndex] == Flatten(chunks) + old(xbuf[..bufIndex]) + RowBytes(plane[..], row, xs, xe)
  {
    ghost var p, start := plane[..], Flatten(chunks) + xbuf[..bufIndex];
    newIndex, newChunks := bufIndex, chunks;
    var xByte := xs;
    while xByte < xe
      invariant xByte == xs || xs < xByte <= xe
      invariant newIndex < SPI_CHUNK && AllFull(newChunks)
      invariant Flatten(newChunks) + xbuf[..newIndex] == start + RowBytes(p, row, xs, xByte)
    {
      var idx := row * BYTES_PER_ROW + xByte;
      assert RowBytes(p, row, xs, xByte + 1) == RowBytes(p, row, xs, xByte) + (if idx < BUFFER_SIZE then [p[idx]] else []);
      if idx < BUFFER_SIZE {
        newIndex, newChunks := PushByte(xbuf, newIndex, newChunks, plane[idx]);
      }
      xByte := xByte + 1;
    }
  }

  /** Hands over what is left in xbuf after a window transfer. */
  lemma FinalFlush(chunks: seq<seq<bv8>>, pending: seq<bv8>, bytes: seq<bv8>)
    requires AllFull(chunks) && |pending| < SPI_CHUNK && Flatten(chunks) + pending == bytes
    ensures pending != [] ==> Chunks(bytes) == chunks + [pending]
    ensures pending == [] ==> Chunks(bytes) == chunks
  {
    if pending != [] {
      FlattenSnoc(chunks, pending);
      FullThenLast(chunks, pending);
      ChunksOfFlatten(chunks + [pending]);
    } else {
      assert Flatten(chunks) == bytes;
      ChunksOfFlatten(chunks);
    }
  }

  /**
   * updateWindow's loop: byte columns [xs, xe) of rows y..ye, skipping any
   * index past the plane, flushing when xbuf is full and once more at the
   * end if anything is left.  The int16_t row counter requires ye < HEIGHT
   * to stop.
   */
  method StreamWindow(plane: array<bv8>, xs: nat, xe: int, y: nat, ye: int) returns (chunks: seq<seq<bv8>>)
    requires plane.Length == BUFFER_SIZE
    requires ye < HEIGHT
    ensures chunks == Chunks(Rows(plane[..], xs, xe, y, ye + 1))
  {
    ghost var p := plane[..];
    var bufferMaxSpi := SPI_CHUNK;
    var xbuf := new bv8[bufferMaxSpi];
    var bufIndex := 0;
    chunks := [];
    var y1 := y;
    while y1 <= ye
      invariant y1 == y || y < y1 <= ye + 1
      invariant 0 <= bufIndex < SPI_CHUNK && AllFull(chunks)
      invariant Flatten(chunks) + xbuf[..bufIndex] == Rows(p, xs, xe, y, y1)
    {
      assert Rows(p, xs, xe, y, y1 + 1) == Rows(p, xs, xe, y, y1) + RowBytes(p, y1, xs, xe);
      bufIndex, chunks := StreamRow(plane, xbuf, bufIndex, chunks, y1, xs, xe);
      y1 := y1 + 1;
    }
    assert Rows(p, xs, xe, y, y1) == Rows(p, xs, xe, y, ye + 1);
    FinalFlush(chunks, xbuf[..bufIndex], Rows(p, xs, xe, y, ye + 1));
    if bufIndex > 0 {
      chunks := chunks + [xbuf[..bufIndex]];
    }
  }

  /**
   * updateWindow2's loop: byte columns xStart..xEnd of rows yStart..yEnd,
   * both inclusive.  Its inner loop leaves both loops and drops the unsent
   * bytes at an index past the plane instead of skipping it; the window
   * updateWindow2 computes never has one (Window2InPanel), which the
   * requires states, so the row loop is StreamRow's.
   */
  method StreamWindow2(plane: array<bv8>, xStart: nat, xEnd: int, yStart: nat, yEnd: int) returns (chunks: seq<seq<bv8>>)
    requires plane.Length == BUFFER_SIZE
    requires xEnd < BYTES_PER_ROW && yEnd < HEIGHT
    ensures chunks == Chunks(Rows(plane[..], xStart, xEnd + 1, yStart, yEnd + 1))
  {
    ghost var p := plane[..];
    var bufferMaxSpi := SPI_CHUNK;
    var xbuf := new bv8[bufferMaxSpi];
    var bufindex := 0;
    chunks := [];
    var currentY := yStart;
    while currentY <= yEnd
      invariant currentY == yStart || yStart < currentY <= yEnd + 1
      invariant 0 <= bufindex < SPI_CHUNK && AllFull(chunks)
      invariant Flatten(chunks) + xbuf[..bufindex] == Rows(p, xStart, xEnd + 1, yStart, currentY)
    {
      assert Rows(p, xStart, xEnd + 1, yStart, currentY + 1) == Rows(p, xStart, xEnd + 1, yStart, currentY) + RowBytes(p, currentY, xStart, xEnd + 1);
      bufindex, chunks := StreamRow(plane, xbuf, bufindex, chunks, currentY, xStart, xEnd + 1);
      currentY := currentY + 1;
    }
    assert Rows(p, xStart, xEnd + 1, yStart, currentY) == Rows(p, xStart, xEnd + 1, yStart, yEnd + 1);
    FinalFlush(chunks, xbuf[..bufindex], Rows(p, xStart, xEnd + 1, yStart, yEnd + 1));
    if bufindex > 0 {
      chunks := chunks + [xbuf[..bufindex]];
    }
  }
}
