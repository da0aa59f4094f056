/** The counting of received frames in `on_data_chunk_recv_callback` (client/src/nghttp.cc): each face keeps a
    number of frames and the bytes that do not fill one yet. */
module FrameCount {
  import Products

  const NUM_TILES := 6

  type Tile = f: nat | f < NUM_TILES

  /** A chunk of bytes received for a tile. */
  datatype Chunk = Chunk(face: Tile, len: nat)

  /** The frames and the carried bytes of every tile. */
  datatype Tally = Tally(frames: seq<int>, carry: seq<real>)
  {
    predicate Valid(sizes: seq<real>)
    {
      && |frames| == |carry| == |sizes| == NUM_TILES
      && forall f: Tile :: 0.0 <= carry[f] < sizes[f]
    }
  }

  function Add(t: Tally, sizes: seq<real>, chunk: Chunk): (u: Tally)
    requires t.Valid(sizes)
    ensures u.Valid(sizes)
  {
    var f := chunk.face;
    var bytes := chunk.len as real + t.carry[f];
    Tally(t.frames[f := t.frames[f] + Whole(bytes, sizes[f])], t.carry[f := Rest(bytes, sizes[f])])
  }

  function Whole(bytes: real, size: real): int
    requires size > 0.0
  {
    (bytes / size).Floor
  }

  function Rest(bytes: real, size: real): (r: real)
    requires size > 0.0
    ensures bytes >= 0.0 ==> 0.0 <= r < size
  {
    if bytes >= 0.0 then Quotient(bytes, size); bytes - Whole(bytes, size) as real * size
    else bytes - Whole(bytes, size) as real * size
  }

  function AddAll(t: Tally, sizes: seq<real>, chunks: seq<Chunk>): (u: Tally)
    requires t.Valid(sizes)
    ensures u.Valid(sizes)
  {
    if chunks == [] then t else Add(AddAll(t, sizes, chunks[..|chunks| - 1]), sizes, chunks[|chunks| - 1])
  }

  /** The bytes of a list of chunks that belong to a tile. */
  function Total(chunks: seq<Chunk>, face: Tile): nat
  {
    if chunks == [] then 0
    else
      var n := |chunks| - 1;
      Total(chunks[..n], face) + if chunks[n].face == face then chunks[n].len else 0
  }

  /** The bytes make this many whole frames, with this carry. */
  predicate Divided(bytes: real, size: real, frames: int, carry: real)
  {
    frames >= 0 && bytes == frames as real * size + carry && 0.0 <= carry < size
  }

  /** Whole frames are the floor of the quotient. */
  lemma Quotient(bytes: real, size: real)
    requires size > 0.0 && bytes >= 0.0
    ensures var whole := Whole(bytes, size); Divided(bytes, size, whole, bytes - whole as real * size)
  {
    var q := bytes / size;
    var whole := q.Floor as real;
    FloorTimes(q, whole, size, bytes, whole * size);
  }

  lemma FloorTimes(q: real, whole: real, size: real, bytes: real, p: real)
    requires size > 0.0 && q * size == bytes && p == whole * size && whole <= q < whole + 1.0
    ensures 0.0 <= bytes - p < size
  {
    Products.Next(whole, size, p);
    Products.Scale(q, whole + 1.0, size, bytes, p + size);
    Products.Scale(q, whole, size, bytes, p);
  }

  lemma DividedMore(bytes: real, more: real, size: real, f: int, c: real, g: int, d: real)
    requires Divided(bytes, size, f, c) && Divided(more + c, size, g, d)
    ensures Divided(bytes + more, size, f + g, d)
  {
    assert (f + g) as real * size == f as real * size + g as real * size;
  }

  /** There is only one way to divide. */
  lemma DividedOnce(bytes: real, size: real, f: int, c: real, g: int, d: real)
    requires size > 0.0 && Divided(bytes, size, f, c) && Divided(bytes, size, g, d)
    ensures f == g && c == d
  {
    Apart(f as real, g as real, size, f as real * size, g as real * size);
    Apart(g as real, f as real, size, g as real * size, f as real * size);
  }

  lemma Apart(x: real, y: real, size: real, p: real, q: real)
    requires size > 0.0 && p == x * size && q == y * size
    ensures x + 1.0 <= y ==> p + size <= q
    ensures x == y ==> p == q
  {
    Products.Next(x, size, p);
    Products.Scale(y, x + 1.0, size, q, p + size);
    Products.Scale(x, y, size, p, q);
    Products.Scale(y, x, size, q, p);
  }

  /** From t to u a tile gained the whole frames in these bytes and its carry, and carries the rest. */
  ghost predicate Gained(t: Tally, u: Tally, sizes: seq<real>, f: Tile, bytes: real)
    requires t.Valid(sizes) && u.Valid(sizes)
  {
    Divided(bytes + t.carry[f], sizes[f], u.frames[f] - t.frames[f], u.carry[f])
  }

  lemma AddGains(t: Tally, sizes: seq<real>, chunk: Chunk, f: Tile)
    requires t.Valid(sizes)
    ensures Gained(t, Add(t, sizes, chunk), sizes, f, if chunk.face == f then chunk.len as real else 0.0)
  {
    if chunk.face == f {
      Quotient(chunk.len as real + t.carry[f], sizes[f]);
    }
  }

  lemma GainsAdd(t: Tally, u: Tally, v: Tally, sizes: seq<real>, f: Tile, bytes: real, more: real)
    requires t.Valid(sizes) && u.Valid(sizes) && v.Valid(sizes)
    requires Gained(t, u, sizes, f, bytes) && Gained(u, v, sizes, f, more)
    ensures Gained(t, v, sizes, f, bytes + more)
  {
    DividedMore(bytes + t.carry[f], more, sizes[f],
                u.frames[f] - t.frames[f], u.carry[f], v.frames[f] - u.frames[f], v.carry[f]);
  }

  /** After any chunks, for the tiles in any order, each tile has gained the whole frames in its carry and all
      its bytes, and carries the rest. */
  lemma {:induction false} FramesOfBytes(t: Tally, sizes: seq<real>, chunks: seq<Chunk>, f: Tile)
    requires t.Valid(sizes)
    ensures Gained(t, AddAll(t, sizes, chunks), sizes, f, Total(chunks, f) as real)
  {
    if chunks != [] {
      var n := |chunks| - 1;
      var before := AddAll(t, sizes, chunks[..n]);
      FramesOfBytes(t, sizes, chunks[..n], f);
      AddGains(before, sizes, chunks[n], f);
      GainsAdd(t, before, Add(before, sizes, chunks[n]), sizes, f, Total(chunks[..n], f) as real,
               if chunks[n].face == f then chunks[n].len as real else 0.0);
    }
  }

  /** The count does not depend on how the bytes are cut into chunks or how the tiles' chunks are mixed. */
  lemma ChunkingIrrelevant(t: Tally, sizes: seq<real>, some: seq<Chunk>, others: seq<Chunk>)
    requires t.Valid(sizes) && forall f: Tile :: Total(some, f) == Total(others, f)
    ensures AddAll(t, sizes, some) == AddAll(t, sizes, others)
  {
    var u, v := AddAll(t, sizes, some), AddAll(t, sizes, others);
    forall f: Tile ensures u.frames[f] == v.frames[f] && u.carry[f] == v.carry[f] {
      assert Total(some, f) == Total(others, f);
      FramesOfBytes(t, sizes, some, f);
      FramesOfBytes(t, sizes, others, f);
      DividedOnce(Total(some, f) as real + t.carry[f], sizes[f],
                  u.frames[f] - t.frames[f], u.carry[f], v.frames[f] - t.frames[f], v.carry[f]);
    }
  }

  class Client {
    const frameBuffer: array<int>
    const compensation: array<real>
    const sizes: seq<real>

    constructor (sizes: seq<real>)
      requires |sizes| == NUM_TILES && forall f: Tile :: sizes[f] > 0.0
      ensures Valid() && fresh(frameBuffer) && fresh(compensation) && this.sizes == sizes
      ensures forall f: Tile :: frameBuffer[f] == 0 && compensation[f] == 0.0
    {
      frameBuffer := new int[NUM_TILES](_ => 0);
      compensation := new real[NUM_TILES](_ => 0.0);
      this.sizes := sizes;
    }

    ghost function Abs(): Tally
      reads frameBuffer, compensation
    {
      Tally(frameBuffer[..], compensation[..])
    }

    ghost predicate Valid()
      reads frameBuffer, compensation
    {
      Abs().Valid(sizes)
    }

    method OnDataChunk(chunk: Chunk)
      requires Valid()
      modifies frameBuffer, compensation
      ensures Valid() && Abs() == Add(old(Abs()), sizes, chunk)
    {
      ghost var before := Abs();
      var face, size := chunk.face, sizes[chunk.face];
      var bytes := chunk.len as real + compensation[face];
      frameBuffer[face] := frameBuffer[face] + Whole(bytes, size);
      compensation[face] := Rest(bytes, size);
      assert frameBuffer[..] == Add(before, sizes, chunk).frames;
      assert compensation[..] == Add(before, sizes, chunk).carry;
    }
  }
}
