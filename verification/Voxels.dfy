/** The voxel world: a grid of block ids, the per-chunk counts of non-air blocks, the heights of the columns and the
    ceiling above which every cell is air. The renderer skips cells on the strength of the last two,
    so what matters here is that no edit ever makes them disagree with the grid. */
module Voxels {

  type Byte = b: int | 0 <= b < 256

  const AIR: Byte := 0

  datatype Cell = Cell(x: int, y: int, z: int)

  // ---------- boxes of cells laid out in a buffer ----------

  lemma MulMono(a: nat, b: nat, c: nat)
    requires a <= b
    ensures a * c <= b * c
  {
  }

  /** Position of column `col` of row `row` when rows are laid end to end. */
  function Flat(row: int, col: int, cols: int): int {
    row * cols + col
  }

  lemma RowBound(row: nat, rows: nat, col: nat, cols: nat)
    requires row < rows && col < cols
    ensures 0 <= Flat(row, col, cols) < rows * cols
  {
    MulMono(row + 1, rows, cols);
  }

  lemma RowInjective(row: nat, col: nat, row': nat, col': nat, cols: nat)
    requires col < cols && col' < cols
    requires Flat(row, col, cols) == Flat(row', col', cols)
    ensures row == row' && col == col'
  {
    if row < row' {
      MulMono(row + 1, row', cols);
    } else if row' < row {
      MulMono(row' + 1, row, cols);
    }
  }

  /** Sizes of a box of cells: the grid itself, or the grid of its 4 x 4 x 4 chunks. */
  datatype Dims = Dims(sx: nat, sy: nat, sz: nat) {
    predicate Chunked() {
      sx % 4 == 0 && sy % 4 == 0 && sz % 4 == 0
    }

    function Chunks(): Dims {
      Dims(sx / 4, sy / 4, sz / 4)
    }

    /** One slot for each column. */
    function Columns(): Dims {
      Dims(sx, 1, sz)
    }

    predicate Contains(c: Cell) {
      0 <= c.x < sx && 0 <= c.y < sy && 0 <= c.z < sz
    }

    function Volume(): nat {
      sy * sz * sx
    }

    /** Offset of a cell in the buffer of the box. */
    function Offset(c: Cell): int {
      Flat(Flat(c.y, c.z, sz), c.x, sx)
    }

    /** The order of the buffer: along x, then along z, then upwards. */
    lemma OffsetOrder(c: Cell)
      ensures Offset(Cell(0, 0, 0)) == 0 && Offset(c.(x := c.x + 1)) == Offset(c) + 1
      ensures Offset(c.(z := c.z + 1)) == Offset(c) + sx && Offset(c.(y := c.y + 1)) == Offset(c) + sz * sx
    {
      assert (c.y * sz + (c.z + 1)) * sx == (c.y * sz + c.z) * sx + sx;
      assert (c.y + 1) * sz == c.y * sz + sz;
      assert (c.y * sz + sz + c.z) * sx == (c.y * sz + c.z) * sx + sz * sx;
    }

    lemma OffsetBound(c: Cell)
      requires Contains(c)
      ensures 0 <= Offset(c) < Volume()
    {
      RowBound(c.y, sy, c.z, sz);
      RowBound(Flat(c.y, c.z, sz), sy * sz, c.x, sx);
    }

    /** Distinct cells of the box have distinct offsets. */
    lemma OffsetInjective(c: Cell, c': Cell)
      requires Contains(c) && Contains(c')
      requires Offset(c) == Offset(c')
      ensures c == c'
    {
      RowBound(c.y, sy, c.z, sz);
      RowBound(c'.y, sy, c'.z, sz);
      RowInjective(Flat(c.y, c.z, sz), c.x, Flat(c'.y, c'.z, sz), c'.x, sx);
      RowInjective(c.y, c.z, c'.y, c'.z, sz);
    }

    /** The buffer seen as a function of the cell; outside the box there is nothing. */
    function View(s: seq<Byte>): Cell -> Byte
      requires |s| == Volume()
    {
      c => if Contains(c) then OffsetBound(c); s[Offset(c)] else 0
    }

    /** Writing the slot of one cell changes what is seen at that cell only. */
    lemma ViewWrite(s: seq<Byte>, c: Cell, v: Byte)
      requires |s| == Volume() && Contains(c)
      ensures 0 <= Offset(c) < |s|
      ensures View(s)(c) == s[Offset(c)]
      ensures Written(View(s), View(s[Offset(c) := v]), c, v)
    {
      OffsetBound(c);
      forall e
        ensures View(s[Offset(c) := v])(e) == if e == c then v else View(s)(e)
      {
        if Contains(e) {
          OffsetBound(e);
          if Offset(e) == Offset(c) {
            OffsetInjective(e, c);
          }
        }
      }
    }
  }

  /** `after` is `before` with the cell c now holding v. */
  ghost predicate Written(before: Cell -> Byte, after: Cell -> Byte, c: Cell, v: Byte) {
    forall e :: after(e) == if e == c then v else before(e)
  }

  function ChunkOf(c: Cell): Cell {
    Cell(c.x / 4, c.y / 4, c.z / 4)
  }

  /** The p-th of the 64 cells of chunk k. */
  function Member(k: Cell, p: nat): Cell {
    Cell(4 * k.x + p % 4, 4 * k.y + p / 16, 4 * k.z + p / 4 % 4)
  }

  lemma MemberOfChunk(k: Cell, p: nat)
    requires p < 64
    ensures ChunkOf(Member(k, p)) == k
  {
  }

  /** Every cell is a member of its own chunk, in exactly one place. */
  lemma PlaceInChunk(c: Cell) returns (p: nat)
    ensures p < 64 && Member(ChunkOf(c), p) == c
    ensures forall q: nat :: q < 64 && Member(ChunkOf(c), q) == c ==> q == p
  {
    p := PlaceOf(c.y % 4, c.z % 4, c.x % 4);
    forall q: nat | q < 64 && Member(ChunkOf(c), q) == c
      ensures q == p
    {
      PlaceDigits(q);
    }
  }

  lemma PlaceOf(y: nat, z: nat, x: nat) returns (p: nat)
    requires y < 4 && z < 4 && x < 4
    ensures p == y * 16 + z * 4 + x < 64 && p / 16 == y && p / 4 % 4 == z && p % 4 == x
  {
    p := y * 16 + z * 4 + x;
    assert p / 4 == y * 4 + z;
  }

  lemma PlaceDigits(p: nat)
    requires p < 64
    ensures p == p / 16 * 16 + p / 4 % 4 * 4 + p % 4
  {
    assert p / 16 == p / 4 / 4;
  }

  // ---------- what the index means ----------

  /** The order in which the recount scans the grid. */
  predicate Before(a: Cell, b: Cell) {
    a.y < b.y || (a.y == b.y && (a.z < b.z || (a.z == b.z && a.x < b.x)))
  }

  /** Places of chunk k that hold a non-air block and come before `limit` in scan order. */
  ghost function Occupied(blocks: Cell -> Byte, k: Cell, limit: Cell): set<nat> {
    set p: nat | p < 64 && Before(Member(k, p), limit) && blocks(Member(k, p)) != AIR
  }

  /** Every chunk count is the number of non-air blocks of the chunk scanned so far. */
  ghost predicate CountsUpTo(d: Dims, blocks: Cell -> Byte, counts: Cell -> Byte, limit: Cell) {
    forall k {:trigger Occupied(blocks, k, limit)} | d.Chunks().Contains(k) :: counts(k) == |Occupied(blocks, k, limit)|
  }

  /** Every chunk count is the number of non-air blocks of the chunk. */
  ghost predicate CountsExact(d: Dims, blocks: Cell -> Byte, counts: Cell -> Byte) {
    CountsUpTo(d, blocks, counts, Cell(0, d.sy, 0))
  }

  /** Nothing but air at or above height h. */
  ghost predicate ClearFrom(d: Dims, blocks: Cell -> Byte, h: int) {
    forall c {:trigger blocks(c)} | d.Contains(c) && c.y >= h :: blocks(c) == AIR
  }

  ghost function Places(n: nat): set<nat> {
    set i: nat {:trigger InPlace(i, n)} | i < n && InPlace(i, n)
  }

  ghost predicate InPlace(i: nat, n: nat) {
    i < n
  }

  lemma {:induction false} PlacesSize(n: nat)
    ensures |Places(n)| == n
  {
    if n == 0 {
      assert Places(0) == {};
    } else {
      PlacesSize(n - 1);
      assert forall i: nat :: InPlace(i, n) <==> InPlace(i, n - 1) || i == n - 1;
      assert Places(n) == Places(n - 1) + {n - 1};
    }
  }

  lemma SubsetSize(a: set<nat>, b: set<nat>)
    requires a <= b
    ensures |a| <= |b|
  {
    assert b == a + (b - a);
  }

  /** A chunk count fits a byte with room to spare. */
  lemma OccupiedAtMost64(blocks: Cell -> Byte, k: Cell, limit: Cell)
    ensures |Occupied(blocks, k, limit)| <= 64
  {
    PlacesSize(64);
    assert forall p :: p in Occupied(blocks, k, limit) ==> InPlace(p, 64);
    SubsetSize(Occupied(blocks, k, limit), Places(64));
  }

  /** What the renderer relies on: a zero count means the whole chunk is air. */
  lemma EmptyChunkIsAir(d: Dims, blocks: Cell -> Byte, counts: Cell -> Byte, c: Cell)
    requires d.Chunked() && CountsExact(d, blocks, counts)
    requires d.Contains(c) && counts(ChunkOf(c)) == 0
    ensures blocks(c) == AIR
  {
    var p := PlaceInChunk(c);
    var k := ChunkOf(c);
    assert d.Chunks().Contains(k);
    assert Occupied(blocks, k, Cell(0, d.sy, 0)) == {};
    assert p !in Occupied(blocks, k, Cell(0, d.sy, 0));
  }

  // ---------- how the occupied places change ----------

  /** `next` follows c immediately among the cells of the grid. */
  ghost predicate Follows(d: Dims, c: Cell, next: Cell) {
    forall e {:trigger Before(e, next)} | d.Contains(e) :: Before(e, next) <==> Before(e, c) || e == c
  }

  /** Scanning one more cell adds its place to its own chunk, if it holds a block. */
  lemma OccupiedScan(d: Dims, blocks: Cell -> Byte, k: Cell, c: Cell, next: Cell)
    requires d.Chunked() && d.Chunks().Contains(k) && d.Contains(c) && Follows(d, c, next)
    ensures var grown := if k == ChunkOf(c) && blocks(c) != AIR then 1 else 0;
            |Occupied(blocks, k, next)| == |Occupied(blocks, k, c)| + grown
  {
    var p := PlaceInChunk(c);
    var before, after := Occupied(blocks, k, c), Occupied(blocks, k, next);
    forall q: nat | q < 64
      ensures Before(Member(k, q), next) <==> Before(Member(k, q), c) || Member(k, q) == c
      ensures Member(k, q) == c ==> k == ChunkOf(c) && q == p
    {
      MemberOfChunk(k, q);
      assert d.Contains(Member(k, q));
    }
    if k == ChunkOf(c) && blocks(c) != AIR {
      assert after == before + {p};
      assert p !in before;
    } else {
      assert after == before;
    }
  }

  lemma SizeWithout(s: set<nat>, p: nat)
    ensures |s| == |s - {p}| + if p in s then 1 else 0
  {
    assert s == if p in s then (s - {p}) + {p} else s - {p};
  }

  /** Writing one cell changes the occupancy of its own chunk by at most that place. */
  lemma OccupiedWrite(d: Dims, blocks: Cell -> Byte, blocks': Cell -> Byte, k: Cell, c: Cell, id: Byte)
    requires d.Chunked() && d.Contains(c) && Written(blocks, blocks', c, id)
    ensures var was := if k == ChunkOf(c) && blocks(c) != AIR then 1 else 0;
            var now := if k == ChunkOf(c) && id != AIR then 1 else 0;
            |Occupied(blocks', k, Cell(0, d.sy, 0))| == |Occupied(blocks, k, Cell(0, d.sy, 0))| - was + now
  {
    var p := PlaceInChunk(c);
    var before, after := Occupied(blocks, k, Cell(0, d.sy, 0)), Occupied(blocks', k, Cell(0, d.sy, 0));
    forall q: nat | q < 64 && Member(k, q) == c
      ensures k == ChunkOf(c) && q == p
    {
      MemberOfChunk(k, q);
    }
    if k == ChunkOf(c) {
      assert before - {p} == after - {p};
      SizeWithout(before, p);
      SizeWithout(after, p);
    } else {
      assert before == after;
    }
  }

  lemma NoWrap(n: int)
    requires 0 <= n <= 64
    ensures n % 256 == n
  {
  }

  /** Counting one scanned cell keeps the counts exact for what has been scanned. */
  lemma CountsScan(d: Dims, blocks: Cell -> Byte, counts: Cell -> Byte, counts': Cell -> Byte, c: Cell, next: Cell)
    requires d.Chunked() && d.Contains(c) && Follows(d, c, next)
    requires CountsUpTo(d, blocks, counts, c)
    requires if blocks(c) != AIR then Written(counts, counts', ChunkOf(c), (counts(ChunkOf(c)) + 1) % 256)
             else counts' == counts
    ensures CountsUpTo(d, blocks, counts', next)
  {
    forall k | d.Chunks().Contains(k)
      ensures counts'(k) == |Occupied(blocks, k, next)|
    {
      OccupiedScan(d, blocks, k, c, next);
      OccupiedAtMost64(blocks, k, next);
      NoWrap(|Occupied(blocks, k, next)|);
    }
  }

  /** The counts after an edit: one more, one fewer or unchanged, never wrapping a byte. */
  lemma CountsWrite(d: Dims, blocks: Cell -> Byte, blocks': Cell -> Byte, counts: Cell -> Byte, counts': Cell -> Byte,
                    c: Cell, id: Byte)
    requires d.Chunked() && d.Contains(c) && Written(blocks, blocks', c, id)
    requires CountsExact(d, blocks, counts)
    requires if blocks(c) == AIR && id != AIR then Written(counts, counts', ChunkOf(c), (counts(ChunkOf(c)) + 1) % 256)
             else if blocks(c) != AIR && id == AIR then Written(counts, counts', ChunkOf(c), (counts(ChunkOf(c)) - 1) % 256)
             else counts' == counts
    ensures CountsExact(d, blocks', counts')
  {
    forall k | d.Chunks().Contains(k)
      ensures counts'(k) == |Occupied(blocks', k, Cell(0, d.sy, 0))|
    {
      OccupiedWrite(d, blocks, blocks', k, c, id);
      OccupiedAtMost64(blocks', k, Cell(0, d.sy, 0));
      NoWrap(|Occupied(blocks', k, Cell(0, d.sy, 0))|);
    }
  }

  /** Writing a cell disturbs the clear space only in its own column. */
  lemma ClearAfterWrite(d: Dims, blocks: Cell -> Byte, blocks': Cell -> Byte, h: int, h': int, c: Cell, id: Byte)
    requires d.Contains(c) && h <= h' && Written(blocks, blocks', c, id)
    requires ClearFrom(d, blocks, h)
    requires forall y | 0 <= y < d.sy && y >= h' :: blocks'(Cell(c.x, y, c.z)) == AIR
    ensures ClearFrom(d, blocks', h')
  {
    forall e | d.Contains(e) && e.y >= h'
      ensures blocks'(e) == AIR
    {
      assert e == c ==> e == Cell(c.x, e.y, c.z);
    }
  }

  /** One more than the height of the highest block of a column below h, or 0 if there is none. */
  function Top(blocks: Cell -> Byte, x: int, z: int, h: nat): (top: nat)
    ensures top <= h && (top > 0 ==> blocks(Cell(x, top - 1, z)) != AIR)
    ensures forall y | top <= y < h :: blocks(Cell(x, y, z)) == AIR
  {
    if h == 0 then 0 else if blocks(Cell(x, h - 1, z)) != AIR then h else Top(blocks, x, z, h - 1)
  }

  lemma TopIs(blocks: Cell -> Byte, x: int, z: int, h: nat, top: nat)
    requires top <= h && (top > 0 ==> blocks(Cell(x, top - 1, z)) != AIR)
    requires forall y | top <= y < h :: blocks(Cell(x, y, z)) == AIR
    ensures top == Top(blocks, x, z, h)
  {
    var t := Top(blocks, x, z, h);
    assert t > 0 ==> blocks(Cell(x, t - 1, z)) != AIR;
  }

  /** Every column's slot holds its height, as a byte. */
  ghost predicate HeightsExact(d: Dims, blocks: Cell -> Byte, heights: Cell -> Byte) {
    forall c {:trigger heights(c)} | d.Columns().Contains(c) :: heights(c) == Top(blocks, c.x, c.z, d.sy) % 256
  }

  /** An edit changes the height of its own column only. */
  lemma HeightsWrite(d: Dims, blocks: Cell -> Byte, blocks': Cell -> Byte, heights: Cell -> Byte, heights': Cell -> Byte,
                     c: Cell, id: Byte)
    requires HeightsExact(d, blocks, heights) && Written(blocks, blocks', c, id)
    requires Written(heights, heights', Cell(c.x, 0, c.z), Top(blocks', c.x, c.z, d.sy) % 256)
    ensures HeightsExact(d, blocks', heights')
  {
    forall e | d.Columns().Contains(e)
      ensures heights'(e) == Top(blocks', e.x, e.z, d.sy) % 256
    {
      if e != Cell(c.x, 0, c.z) {
        assert heights'(e) == heights(e);
        var t := Top(blocks, e.x, e.z, d.sy);
        forall y
          ensures blocks'(Cell(e.x, y, e.z)) == blocks(Cell(e.x, y, e.z))
        {
        }
        TopIs(blocks', e.x, e.z, d.sy, t);
      }
    }
  }

  // ---------- the world ----------

  class World {
    const dims: Dims
    const buf: array<Byte>
    const cbuf: array<Byte>
    const hbuf: array<Byte>
    var maxH: nat

    /** Sizes match; says nothing yet about the index. */
    ghost predicate Shaped() {
      && dims.Chunked() && buf.Length == dims.Volume() && cbuf.Length == dims.Chunks().Volume() && buf != cbuf
      && hbuf.Length == dims.Columns().Volume() && hbuf != buf && hbuf != cbuf
    }

    /** The blocks of the grid, as a function of the cell. */
    ghost function Blocks(): Cell -> Byte
      requires Shaped()
      reads buf
    {
      dims.View(buf[..])
    }

    /** The chunk counts, as a function of the chunk. */
    ghost function Counts(): Cell -> Byte
      requires Shaped()
      reads cbuf
    {
      dims.Chunks().View(cbuf[..])
    }

    /** The heights, as a function of the column. */
    ghost function Heights(): Cell -> Byte
      requires Shaped()
      reads hbuf
    {
      dims.Columns().View(hbuf[..])
    }

    /** The index agrees with the grid: chunk counts and heights are exact and nothing lies at or above maxH. */
    ghost predicate Valid()
      reads this, buf, cbuf, hbuf
    {
      && Shaped() && CountsExact(dims, Blocks(), Counts()) && ClearFrom(dims, Blocks(), maxH)
      && HeightsExact(dims, Blocks(), Heights())
    }

    constructor (sx: nat, sy: nat, sz: nat)
      requires Dims(sx, sy, sz).Chunked()
      ensures Shaped() && dims == Dims(sx, sy, sz) && maxH == 0
      ensures fresh(buf) && fresh(cbuf) && fresh(hbuf)
      ensures forall i | 0 <= i < buf.Length :: buf[i] == AIR
    {
      dims := Dims(sx, sy, sz);
      buf := new Byte[sy * sz * sx](_ => AIR);
      cbuf := new Byte[(sy / 4) * (sz / 4) * (sx / 4)](_ => 0);
      hbuf := new Byte[1 * sz * sx](_ => 0);
      maxH := 0;
    }

    /** Reads one slot of the grid buffer. */
    method ReadBlock(x: int, y: int, z: int) returns (b: Byte)
      requires Shaped() && dims.Contains(Cell(x, y, z))
      ensures b == Blocks()(Cell(x, y, z))
    {
      dims.OffsetBound(Cell(x, y, z));
      b := buf[(y * dims.sz + z) * dims.sx + x];
    }

    /** Writes one slot of the grid buffer, and nothing else. */
    method WriteBlock(x: int, y: int, z: int, id: Byte)
      requires Shaped() && dims.Contains(Cell(x, y, z))
      modifies buf
      ensures Written(old(Blocks()), Blocks(), Cell(x, y, z), id)
    {
      ghost var s := buf[..];
      dims.ViewWrite(s, Cell(x, y, z), id);
      buf[(y * dims.sz + z) * dims.sx + x] := id;
      assert buf[..] == s[dims.Offset(Cell(x, y, z)) := id];
    }

    /** Moves the count of the chunk holding (x, y, z) by delta, as a byte. */
    method BumpChunk(x: int, y: int, z: int, delta: int)
      requires Shaped() && dims.Contains(Cell(x, y, z))
      modifies cbuf
      ensures var k := ChunkOf(Cell(x, y, z)); Written(old(Counts()), Counts(), k, (old(Counts())(k) + delta) % 256)
    {
      ghost var s, k, cd := cbuf[..], ChunkOf(Cell(x, y, z)), dims.Chunks();
      assert cd.Contains(k);
      var cxx, czz := dims.sx / 4, dims.sz / 4;
      var idx := (y / 4 * czz + z / 4) * cxx + x / 4;
      assert idx == cd.Offset(k);
      cd.OffsetBound(k);
      var cur := cbuf[idx];
      var bumped: Byte := (cur + delta) % 256;
      cd.ViewWrite(s, k, bumped);
      cbuf[idx] := bumped;
      assert cbuf[..] == s[idx := bumped];
    }

    method ZeroCounts()
      requires Shaped()
      modifies cbuf
      ensures CountsUpTo(dims, Blocks(), Counts(), Cell(0, 0, 0))
    {
      var ci := 0;
      while ci < cbuf.Length
        invariant 0 <= ci <= cbuf.Length
        invariant forall i | 0 <= i < ci :: cbuf[i] == 0
      {
        cbuf[ci] := 0;
        ci := ci + 1;
      }
      forall k | dims.Chunks().Contains(k)
        ensures Counts()(k) == |Occupied(Blocks(), k, Cell(0, 0, 0))|
      {
        dims.Chunks().OffsetBound(k);
        assert Occupied(Blocks(), k, Cell(0, 0, 0)) == {};
      }
    }

    /** Recounts every chunk from whatever the grid holds. */
    method RebuildChunks()
      requires Shaped()
      modifies cbuf
      ensures CountsExact(dims, Blocks(), Counts())
    {
      ZeroCounts();
      ghost var blocks := Blocks();
      var y := 0;
      while y < dims.sy
        invariant 0 <= y <= dims.sy && Blocks() == blocks
        invariant CountsUpTo(dims, blocks, Counts(), Cell(0, y, 0))
      {
        var z := 0;
        while z < dims.sz
          invariant 0 <= z <= dims.sz && Blocks() == blocks
          invariant CountsUpTo(dims, blocks, Counts(), Cell(0, y, z))
        {
          var x := 0;
          while x < dims.sx
            invariant 0 <= x <= dims.sx && Blocks() == blocks
            invariant CountsUpTo(dims, blocks, Counts(), Cell(x, y, z))
          {
            CountCell(x, y, z);
            x := x + 1;
          }
          CountsReach(dims, blocks, Counts(), Cell(x, y, z), Cell(0, y, z + 1));
          z := z + 1;
        }
        CountsReach(dims, blocks, Counts(), Cell(0, y, z), Cell(0, y + 1, 0));
        y := y + 1;
      }
    }

    /** One cell of the recount. */
    method CountCell(x: int, y: int, z: int)
      requires Shaped() && dims.Contains(Cell(x, y, z)) && CountsUpTo(dims, Blocks(), Counts(), Cell(x, y, z))
      modifies cbuf
      ensures Blocks() == old(Blocks()) && CountsUpTo(dims, Blocks(), Counts(), Cell(x + 1, y, z))
    {
      ghost var counts := Counts();
      var b := ReadBlock(x, y, z);
      if b != AIR {
        BumpChunk(x, y, z, 1);
      }
      CountsScan(dims, Blocks(), counts, Counts(), Cell(x, y, z), Cell(x + 1, y, z));
    }

    /** Writes one slot of the heights, as a byte. */
    method WriteHeight(x: int, z: int, top: nat)
      requires Shaped() && 0 <= x < dims.sx && 0 <= z < dims.sz
      modifies hbuf
      ensures Written(old(Heights()), Heights(), Cell(x, 0, z), top % 256)
    {
      ghost var s, c, columns := hbuf[..], Cell(x, 0, z), dims.Columns();
      var slot: Byte := top % 256;
      columns.ViewWrite(s, c, slot);
      assert columns.Offset(c) == z * dims.sx + x;
      hbuf[z * dims.sx + x] := slot;
      assert hbuf[..] == s[columns.Offset(c) := slot];
    }

    /** The loop from the top of a column down to its first block. */
    method ColumnTop(x: int, z: int) returns (top: nat)
      requires Shaped() && 0 <= x < dims.sx && 0 <= z < dims.sz
      ensures top == Top(Blocks(), x, z, dims.sy)
    {
      var ty := dims.sy - 1;
      top := 0;
      while ty >= 0
        invariant -1 <= ty < dims.sy && top == 0
        invariant forall y | ty < y < dims.sy :: Blocks()(Cell(x, y, z)) == AIR
      {
        var b := ReadBlock(x, ty, z);
        if b != AIR {
          top := ty + 1;
          break;
        }
        ty := ty - 1;
      }
      TopIs(Blocks(), x, z, dims.sy, top);
    }

    /** Records the height of one column and raises the ceiling to it; the ceiling never comes down. */
    method UpdateColumn(x: int, z: int)
      requires Shaped() && 0 <= x < dims.sx && 0 <= z < dims.sz
      modifies this, hbuf
      ensures Written(old(Heights()), Heights(), Cell(x, 0, z), Top(Blocks(), x, z, dims.sy) % 256)
      ensures var top := Top(Blocks(), x, z, dims.sy); maxH == if top > old(maxH) then top else old(maxH)
    {
      var top := ColumnTop(x, z);
      WriteHeight(x, z, top);
      if top > maxH {
        maxH := top;
      }
    }

    method RebuildHeights()
      requires Shaped()
      modifies this, hbuf
      ensures maxH >= old(maxH)
      ensures ClearFrom(dims, Blocks(), maxH) && HeightsExact(dims, Blocks(), Heights())
    {
      var z := 0;
      while z < dims.sz
        invariant 0 <= z <= dims.sz && maxH >= old(maxH)
        invariant forall c {:trigger Heights()(c)} | dims.Columns().Contains(c) && c.z < z ::
                    Heights()(c) == Top(Blocks(), c.x, c.z, dims.sy) % 256
        invariant forall c | dims.Contains(c) && c.y >= maxH && c.z < z :: Blocks()(c) == AIR
      {
        var x := 0;
        while x < dims.sx
          invariant 0 <= x <= dims.sx && maxH >= old(maxH)
          invariant forall c {:trigger Heights()(c)} | dims.Columns().Contains(c) && (c.z < z || (c.z == z && c.x < x)) ::
                      Heights()(c) == Top(Blocks(), c.x, c.z, dims.sy) % 256
          invariant forall c | dims.Contains(c) && c.y >= maxH && (c.z < z || (c.z == z && c.x < x)) ::
                      Blocks()(c) == AIR
        {
          UpdateColumn(x, z);
          x := x + 1;
        }
        z := z + 1;
      }
    }

    /** The end of terrain generation: whatever was written to the grid, the index now agrees with it. */
    method Reindex()
      requires Shaped()
      modifies this, cbuf, hbuf
      ensures Valid()
    {
      RebuildHeights();
      RebuildChunks();
    }

    method Get(x: int, y: int, z: int) returns (id: Byte)
      requires Shaped()
      ensures id == Blocks()(Cell(x, y, z))
    {
      if x < 0 || x >= dims.sx || y < 0 || y >= dims.sy || z < 0 || z >= dims.sz {
        return AIR;
      }
      id := ReadBlock(x, y, z);
    }

    /** An edit: exactly one cell changes, and the index still agrees with the grid. */
    method Set(x: int, y: int, z: int, id: Byte)
      requires Valid()
      modifies this, buf, cbuf, hbuf
      ensures Valid() && maxH >= old(maxH)
      ensures if dims.Contains(Cell(x, y, z)) then Written(old(Blocks()), Blocks(), Cell(x, y, z), id)
              else buf[..] == old(buf[..]) && cbuf[..] == old(cbuf[..]) && hbuf[..] == old(hbuf[..]) && maxH == old(maxH)
    {
      if x < 0 || x >= dims.sx || y < 0 || y >= dims.sy || z < 0 || z >= dims.sz {
        return;
      }
      ghost var blocks, counts, heights := Blocks(), Counts(), Heights();
      var was := ReadBlock(x, y, z);
      WriteBlock(x, y, z, id);
      if was == AIR && id != AIR {
        BumpChunk(x, y, z, 1);
      }
      if was != AIR && id == AIR {
        BumpChunk(x, y, z, 0 - 1);
      }
      CountsWrite(dims, blocks, Blocks(), counts, Counts(), Cell(x, y, z), id);
      UpdateColumn(x, z);
      ClearAfterWrite(dims, blocks, Blocks(), old(maxH), maxH, Cell(x, y, z), id);
      HeightsWrite(dims, blocks, Blocks(), heights, Heights(), Cell(x, y, z), id);
    }
  }

  /** At the end of a row or a layer the scan position moves on without meeting a cell. */
  lemma CountsReach(d: Dims, blocks: Cell -> Byte, counts: Cell -> Byte, at: Cell, next: Cell)
    requires d.Chunked() && CountsUpTo(d, blocks, counts, at)
    requires forall e | d.Contains(e) :: Before(e, at) <==> Before(e, next)
    ensures CountsUpTo(d, blocks, counts, next)
  {
    forall k | d.Chunks().Contains(k)
      ensures counts(k) == |Occupied(blocks, k, next)|
    {
      forall p: nat | p < 64
        ensures Before(Member(k, p), at) <==> Before(Member(k, p), next)
      {
        assert d.Contains(Member(k, p));
      }
      assert Occupied(blocks, k, next) == Occupied(blocks, k, at);
    }
  }
}
