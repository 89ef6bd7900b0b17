/** The `ZLOS` occluder file: `Save`, `parse`, and that each undoes the other. */
module LosFormat {
  import opened Basics
  import opened Los
  import opened LosCells

  type byte = b: int | 0 <= b < 256

  const MAGIC: seq<byte> := [0x5A, 0x4C, 0x4F, 0x53]
  const FILE_VERSION: int := 1
  const FLAGS_QUANTIZE: int := 1
  const HEADER_WORDS: int := 22
  const HEADER_SIZE: int := 88
  const MAX_FILE_BYTES: int := 0x1000_0000
  const MAX_VERTICES: int := 50_000_000
  const MAX_TRIANGLES: int := 50_000_000
  const MAX_GRID_DIM: int := 1_000_000
  const MAX_CELL_COUNT: int := 0x400_0000
  const MAX_CELL_REFS: int := 400_000_000

  datatype ParseError =
    | TooLarge | TooSmall | BadMagic | BadVersion | BadEncoding | BadFlags | BadWidth
    | CountTooLarge | CountMismatch | BadGrid | GridTooLarge | Truncated | RaggedRefs | TooManyRefs
    | BadCellSize | NonFiniteBounds(axis: int) | InvertedBounds(axis: int) | BadScale(axis: int)
    | TriangleIndex(at: int) | CellTable | NonMonotonicCell(at: int) | CellTriangleIndex(at: int)

  datatype Result<+T> = Ok(value: T) | Err(error: ParseError)

  // ---- Little-endian words --------------------------------------------------------

  function Limit(w: nat): nat { if w == 0 then 1 else 256 * Limit(w - 1) }

  function Bytes(v: nat, w: nat): (s: seq<byte>)
    ensures |s| == w
  {
    if w == 0 then [] else [v % 256] + Bytes(v / 256, w - 1)
  }

  function Word(s: seq<byte>): (v: nat)
    ensures v < Limit(|s|)
  {
    if s == [] then 0 else s[0] + 256 * Word(s[1..])
  }

  lemma {:induction false} WordOfBytes(v: nat, w: nat)
    requires v < Limit(w)
    ensures Word(Bytes(v, w)) == v
  {
    if w > 0 {
      assert Bytes(v, w)[1..] == Bytes(v / 256, w - 1);
      WordOfBytes(v / 256, w - 1);
    }
  }

  lemma Digit(d: byte, r: nat)
    ensures (d + 256 * r) % 256 == d && (d + 256 * r) / 256 == r
  {
  }

  lemma {:induction false} BytesOfWord(s: seq<byte>)
    ensures Bytes(Word(s), |s|) == s
  {
    if s != [] {
      Digit(s[0], Word(s[1..]));
      BytesOfWord(s[1..]);
    }
  }

  lemma Limits()
    ensures Limit(1) == 0x100 && Limit(2) == 0x1_0000 && Limit(3) == 0x100_0000 && Limit(4) == 0x1_0000_0000
  {
    assert Limit(0) == 1;
  }

  // ---- Tables of words --------------------------------------------------------------

  ghost predicate Fit(ws: seq<int>, w: nat) {
    forall i :: 0 <= i < |ws| ==> 0 <= ws[i] < Limit(w)
  }

  predicate Unsigned(ws: seq<int>) { forall i :: 0 <= i < |ws| ==> ws[i] >= 0 }

  /** Bytes of `n` records of `w` bytes. */
  function Span(n: nat, w: nat): nat { n * w }

  lemma SpanStep(n: nat, w: nat)
    ensures Span(0, w) == 0
    ensures Span(n + 1, w) == Span(n, w) + w
  {
  }

  lemma {:induction false} SpanFits(i: nat, n: nat, w: nat)
    requires i <= n
    ensures Span(i, w) <= Span(n, w)
    ensures i < n ==> Span(i, w) + w <= Span(n, w)
  {
    if i < n {
      SpanStep(n - 1, w);
      SpanFits(i, n - 1, w);
    }
  }

  function Flat(ws: seq<int>, w: nat): (s: seq<byte>)
    requires Unsigned(ws)
    ensures |s| == Span(|ws|, w)
  {
    SpanStep(0, w);
    if ws == [] then [] else SpanStep(|ws| - 1, w); Bytes(ws[0], w) + Flat(ws[1..], w)
  }

  /** The `n` words of width `w` at `off`. */
  function ReadWords(data: seq<byte>, off: nat, n: nat, w: nat): (ws: seq<int>)
    requires off + Span(n, w) <= |data|
    ensures |ws| == n
    ensures forall i :: 0 <= i < n ==> 0 <= ws[i] < Limit(w)
    decreases n
  {
    if n == 0 then [] else
      SpanStep(n - 1, w);
      [Word(data[off..off + w])] + ReadWords(data, off + w, n - 1, w)
  }

  lemma SplitAt(data: seq<byte>, off: nat, a: seq<byte>, b: seq<byte>)
    requires off + |a| + |b| <= |data| && data[off..off + |a| + |b|] == a + b
    ensures data[off..off + |a|] == a && data[off + |a|..off + |a| + |b|] == b
  {
    var s := data[off..off + |a| + |b|];
    assert s[..|a|] == data[off..off + |a|];
    assert s[|a|..] == data[off + |a|..off + |a| + |b|];
  }

  /** Reading back a table wherever it stands in the file. */
  lemma {:induction false} ReadFlat(data: seq<byte>, off: nat, ws: seq<int>, w: nat)
    requires Fit(ws, w) && off + Span(|ws|, w) <= |data| && data[off..off + Span(|ws|, w)] == Flat(ws, w)
    ensures ReadWords(data, off, |ws|, w) == ws
    decreases |ws|
  {
    if ws != [] {
      var n := |ws|;
      var rest := ws[1..];
      SpanStep(n - 1, w);
      assert Flat(ws, w) == Bytes(ws[0], w) + Flat(rest, w);
      hide Span;
      WordOfBytes(ws[0], w);
      hide Word, Flat;
      SplitAt(data, off, Bytes(ws[0], w), Flat(rest, w));
      ReadFlat(data, off + w, rest, w);
    }
  }

  lemma {:induction false} FlatAppend(ws: seq<int>, v: int, w: nat)
    requires v >= 0 && Unsigned(ws)
    ensures Flat(ws + [v], w) == Flat(ws, w) + Bytes(v, w)
  {
    if ws == [] {
      assert ws + [v] == [v];
      assert Flat([v][1..], w) == [];
    } else {
      assert (ws + [v])[1..] == ws[1..] + [v];
      FlatAppend(ws[1..], v, w);
    }
  }

  lemma {:induction false} ReadWordsAt(data: seq<byte>, off: nat, n: nat, w: nat, i: nat)
    requires off + Span(n, w) <= |data| && i < n
    ensures Span(i, w) + w <= Span(n, w)
    ensures ReadWords(data, off, n, w)[i] == Word(data[off + Span(i, w)..off + Span(i, w) + w])
    decreases n
  {
    SpanFits(i, n, w);
    SpanStep(n - 1, w);
    SpanStep(0, w);
    if i > 0 {
      SpanStep(i - 1, w);
      hide Span;
      ReadWordsAt(data, off + w, n - 1, w, i - 1);
    }
  }

  // ---- 16-bit vertices and 32-bit floats -------------------------------------------------

  function Unsigned16(v: int): int { if v < 0 then v + 0x1_0000 else v }

  function Signed16(w: int): int { if w >= 0x8000 then w - 0x1_0000 else w }

  /** Exponent bits all ones mean infinity or not a number. */
  predicate Finite(bits: int) { (bits / 0x80_0000) % 0x100 != 0xFF }

  /** Orders finite floats by their bits: sign and magnitude, with one zero. */
  function Key(bits: int): int { if bits >= 0x8000_0000 then 0x8000_0000 - bits else bits }

  // ---- Encoding ---------------------------------------------------------------------------

  type FileOccluders = Occluders<int>

  function IndexWidth(n: int): nat { if n <= 0xFFFF then 2 else if n <= 0xFF_FFFF then 3 else 4 }

  function Larger(a: int, b: int): int { if a > b then a else b }

  function Width(o: FileOccluders): nat { IndexWidth(Larger(o.VertexCount(), o.TriangleCount())) }

  /** The header as 32-bit words; the first is the magic, the last is unused. */
  function HeaderWords(o: FileOccluders): seq<int> {
    [Word(MAGIC), FILE_VERSION, FLAGS_QUANTIZE, Width(o),
     o.boundsMin.x, o.boundsMin.y, o.boundsMin.z, o.boundsMax.x, o.boundsMax.y, o.boundsMax.z,
     o.origin.x, o.origin.y, o.origin.z, o.cellSize,
     o.gridX, o.gridZ, o.VertexCount(), o.TriangleCount(),
     o.scale.x, o.scale.y, o.scale.z, 0]
  }

  function VertexWords(verts: seq<int>): seq<int> { seq(|verts|, i requires 0 <= i < |verts| => Unsigned16(verts[i])) }

  predicate Float32(bits: int) { 0 <= bits < 0x1_0000_0000 }

  predicate Floats(v: Vec3<int>) { Float32(v.x) && Float32(v.y) && Float32(v.z) }

  /** The field widths of the source's struct. */
  ghost predicate Typed(o: FileOccluders) {
    && Floats(o.boundsMin) && Floats(o.boundsMax) && Floats(o.origin) && Floats(o.scale) && Float32(o.cellSize)
    && (forall i :: 0 <= i < |o.verts| ==> -0x8000 <= o.verts[i] < 0x8000)
    && Fit(o.tris, 4) && Fit(o.cellStart, 4) && Fit(o.cellTris, 4)
    && 0 <= o.gridX < 0x1_0000_0000 && 0 <= o.gridZ < 0x1_0000_0000
    && |o.verts| < 0x1_0000_0000 && |o.tris| < 0x1_0000_0000
  }

  ghost function Encode(o: FileOccluders): seq<byte>
    requires Typed(o)
  {
    HeaderTyped(o);
    Flat(HeaderWords(o), 4) + Flat(VertexWords(o.verts), 2) + Flat(o.tris, Width(o)) + Flat(o.cellStart, 4)
        + Flat(o.cellTris, Width(o))
  }

  lemma HeaderTyped(o: FileOccluders)
    requires Typed(o)
    ensures Fit(HeaderWords(o), 4)
  {
    Limits();
  }

  // ---- Save ---------------------------------------------------------------------------------

  /** The low `w` bytes of `v` at `off`. */
  method Put(buf: array<byte>, off: nat, v: nat, w: nat)
    requires off + w <= buf.Length
    modifies buf
    ensures buf[..] == old(buf[..off]) + Bytes(v, w) + old(buf[off + w..])
  {
    var rest := v;
    for i := 0 to w
      invariant rest >= 0
      invariant buf[..off] == old(buf[..off]) && buf[off + w..] == old(buf[off + w..])
      invariant Bytes(v, w) == buf[off..off + i] + Bytes(rest, w - i)
    {
      ghost var head := buf[off..off + i];
      buf[off + i] := rest % 256;
      assert buf[off..off + i + 1] == head + [rest % 256];
      rest := rest / 256;
    }
    assert buf[..] == buf[..off] + buf[off..off + w] + buf[off + w..];
  }

  /** Writes a table after the bytes already written, and returns the new offset. */
  method PutWords(buf: array<byte>, off: nat, ws: seq<int>, w: nat) returns (end: nat)
    requires off + Span(|ws|, w) <= buf.Length && Unsigned(ws)
    modifies buf
    ensures end == off + Span(|ws|, w) && buf[..end] == old(buf[..off]) + Flat(ws, w)
  {
    end := off;
    SpanStep(0, w);
    hide Span;
    for i := 0 to |ws|
      invariant end == off + Span(i, w) <= buf.Length
      invariant buf[..end] == old(buf[..off]) + Flat(ws[..i], w)
    {
      SpanFits(i, |ws|, w);
      SpanStep(i, w);
      FlatAppend(ws[..i], ws[i], w);
      assert ws[..i] + [ws[i]] == ws[..i + 1];
      ghost var done := buf[..end];
      Put(buf, end, ws[i], w);
      assert buf[..end + w] == done + Bytes(ws[i], w);
      end := end + w;
    }
    assert ws[..|ws|] == ws;
  }

  function Cells(gx: int, gz: int): int { gx * gz }

  /** Bytes of everything but the cell references. */
  function Need(vc: int, tc: int, width: int, cells: int): int {
    HEADER_SIZE + vc * 6 + tc * 3 * width + (cells + 1) * 4
  }

  function EncodedSize(o: FileOccluders): int {
    Need(o.VertexCount(), o.TriangleCount(), Width(o), Cells(o.gridX, o.gridZ)) + |o.cellTris| * Width(o)
  }

  /** The table sizes that the counts in the header promise. */
  ghost predicate Shaped(o: FileOccluders) {
    o.gridX >= 1 && o.gridZ >= 1 && |o.verts| % 3 == 0 && |o.tris| % 3 == 0
        && |o.cellStart| == Cells(o.gridX, o.gridZ) + 1
  }

  lemma NeedIsSpans(vc: nat, tc: nat, width: nat, cells: nat)
    ensures Need(vc, tc, width, cells) == HEADER_SIZE + Span(3 * vc, 2) + Span(3 * tc, width) + Span(cells + 1, 4)
  {
    assert tc * 3 * width == (3 * tc) * width;
  }

  lemma SizeOfTables(o: FileOccluders)
    requires Shaped(o)
    ensures EncodedSize(o) == Span(|HeaderWords(o)|, 4) + Span(|VertexWords(o.verts)|, 2) + Span(|o.tris|, Width(o))
                              + Span(|o.cellStart|, 4) + Span(|o.cellTris|, Width(o))
  {
    CellsPositive(o.gridX, o.gridZ);
    NeedIsSpans(o.VertexCount(), o.TriangleCount(), Width(o), Cells(o.gridX, o.gridZ));
  }

  /** The tables after the vertices. */
  method PutIndices(buf: array<byte>, off: nat, tris: seq<int>, starts: seq<int>, refs: seq<int>, w: nat)
    requires buf.Length == off + Span(|tris|, w) + Span(|starts|, 4) + Span(|refs|, w)
    requires Unsigned(tris)
    requires Unsigned(starts)
    requires Unsigned(refs)
    modifies buf
    ensures buf[..] == old(buf[..off]) + Flat(tris, w) + Flat(starts, 4) + Flat(refs, w)
  {
    hide Flat, Span, Unsigned;
    var at := PutWords(buf, off, tris, w);
    at := PutWords(buf, at, starts, 4);
    at := PutWords(buf, at, refs, w);
    assert buf[..at] == buf[..];
  }

  lemma WordsNonNeg(o: FileOccluders)
    requires Typed(o)
    ensures Unsigned(HeaderWords(o)) && Unsigned(VertexWords(o.verts))
    ensures Unsigned(o.tris) && Unsigned(o.cellStart) && Unsigned(o.cellTris)
  {
    HeaderTyped(o);
    hide HeaderWords;
  }

  method Save(o: FileOccluders) returns (buf: array<byte>)
    requires Typed(o) && Shaped(o)
    ensures fresh(buf) && buf[..] == Encode(o)
  {
    WordsNonNeg(o);
    SizeOfTables(o);
    hide EncodedSize, Flat, HeaderWords, VertexWords, Width, Span, Typed, Shaped, Unsigned;
    buf := new byte[EncodedSize(o)](_ => 0);
    var off := PutWords(buf, 0, HeaderWords(o), 4);
    assert buf[..off] == Flat(HeaderWords(o), 4);
    off := PutWords(buf, off, VertexWords(o.verts), 2);
    assert buf[..off] == Flat(HeaderWords(o), 4) + Flat(VertexWords(o.verts), 2);
    PutIndices(buf, off, o.tris, o.cellStart, o.cellTris, Width(o));
  }

  // ---- parse: the header -------------------------------------------------------------------------

  datatype Header = Header(width: nat, vc: nat, tc: nat, gx: nat, gz: nat, refs: nat)

  function HeaderWord(data: seq<byte>, k: nat): nat
    requires |data| >= HEADER_SIZE && k < HEADER_WORDS
  {
    Word(data[4 * k..4 * k + 4])
  }

  function ParseHeader(data: seq<byte>): Result<Header> {
    if |data| > MAX_FILE_BYTES then Err(TooLarge)
    else if |data| < HEADER_SIZE then Err(TooSmall)
    else if data[..4] != MAGIC then Err(BadMagic)
    else if HeaderWord(data, 1) != FILE_VERSION then Err(BadVersion)
    else if HeaderWord(data, 2) % 2 == 0 then Err(BadEncoding)
    else if HeaderWord(data, 2) / 2 != 0 then Err(BadFlags)
    else
      var width := data[12];
      if width != 2 && width != 3 && width != 4 then Err(BadWidth) else
      var vc, tc := HeaderWord(data, 16), HeaderWord(data, 17);
      if vc > MAX_VERTICES || tc > MAX_TRIANGLES then Err(CountTooLarge)
      else if (vc == 0) != (tc == 0) then Err(CountMismatch)
      else
        var gx, gz := HeaderWord(data, 14), HeaderWord(data, 15);
        if gx <= 0 || gz <= 0 || gx > MAX_GRID_DIM || gz > MAX_GRID_DIM then Err(BadGrid)
        else if Cells(gx, gz) > MAX_CELL_COUNT then Err(GridTooLarge)
        else
          var need := Need(vc, tc, width, Cells(gx, gz));
          if |data| < need then Err(Truncated) else
          var refBytes := |data| - need;
          if refBytes % width != 0 then Err(RaggedRefs)
          else if refBytes / width > MAX_CELL_REFS then Err(TooManyRefs)
          else Ok(Header(width, vc, tc, gx, gz, refBytes / width))
  }

  function Triple(data: seq<byte>, k: nat): Vec3<int>
    requires |data| >= HEADER_SIZE && k + 2 < HEADER_WORDS
  {
    Vec3(HeaderWord(data, k), HeaderWord(data, k + 1), HeaderWord(data, k + 2))
  }

  function AxisError(axis: int, lo: int, hi: int, origin: int, scale: int): Option<ParseError> {
    if !Finite(lo) || !Finite(hi) || !Finite(origin) then Some(NonFiniteBounds(axis))
    else if Key(lo) > Key(hi) then Some(InvertedBounds(axis))
    else if !Finite(scale) || Key(scale) < 0 then Some(BadScale(axis))
    else None
  }

  /** The float checks, in the order of the code: cell size, then axis by axis. */
  function FloatError(lo: Vec3<int>, hi: Vec3<int>, origin: Vec3<int>, cellSize: int,
      scale: Vec3<int>): Option<ParseError> {
    if !Finite(cellSize) || Key(cellSize) <= 0 then Some(BadCellSize) else
    var ex := AxisError(0, lo.x, hi.x, origin.x, scale.x);
    if ex.Some? then ex else
    var ey := AxisError(1, lo.y, hi.y, origin.y, scale.y);
    if ey.Some? then ey else
    AxisError(2, lo.z, hi.z, origin.z, scale.z)
  }

  // ---- parse: the tables ---------------------------------------------------------------------------

  lemma HeaderFits(data: seq<byte>, h: Header)
    requires ParseHeader(data) == Ok(h)
    ensures 2 <= h.width <= 4 && 1 <= h.gx && 1 <= h.gz && (h.vc == 0 <==> h.tc == 0)
    ensures h.vc <= MAX_VERTICES && h.tc <= MAX_TRIANGLES && 1 <= Cells(h.gx, h.gz) <= MAX_CELL_COUNT
    ensures |data| == HEADER_SIZE + Span(3 * h.vc, 2) + Span(3 * h.tc, h.width) + Span(Cells(h.gx, h.gz) + 1, 4)
            + Span(h.refs, h.width)
  {
    hide Need, Cells, Word;
    CellsPositive(h.gx, h.gz);
    NeedIsSpans(h.vc, h.tc, h.width, Cells(h.gx, h.gz));
    var refBytes := |data| - Need(h.vc, h.tc, h.width, Cells(h.gx, h.gz));
    WholeRecords(refBytes, h.width);
    hide Span;
  }

  lemma CellsPositive(gx: int, gz: int)
    requires gx >= 1 && gz >= 1
    ensures Cells(gx, gz) >= 1
  {
    NonNeg(gx - 1, gz - 1);
    assert gx * gz == (gx - 1) * (gz - 1) + gx + gz - 1;
  }

  lemma WholeRecords(bytes: nat, width: nat)
    requires width > 0 && bytes % width == 0
    ensures Span(bytes / width, width) == bytes
  {
  }

  /** The occluder laid out in `data`, before the table checks. */
  ghost function Tables(data: seq<byte>, h: Header): FileOccluders
    requires ParseHeader(data) == Ok(h)
  {
    HeaderFits(data, h);
    var cells: nat := Cells(h.gx, h.gz);
    var atTris := HEADER_SIZE + Span(3 * h.vc, 2);
    var atCells := atTris + Span(3 * h.tc, h.width);
    var atRefs := atCells + Span(cells + 1, 4);
    Frame(data, h).(
      verts := SignedWords(ReadWords(data, HEADER_SIZE, 3 * h.vc, 2)),
      tris := ReadWords(data, atTris, 3 * h.tc, h.width),
      cellStart := ReadWords(data, atCells, cells + 1, 4),
      cellTris := ReadWords(data, atRefs, h.refs, h.width))
  }

  /** The header fields of the occluder, with empty tables. */
  function Frame(data: seq<byte>, h: Header): FileOccluders
    requires |data| >= HEADER_SIZE
  {
    Occluders(Triple(data, 4), Triple(data, 7), Triple(data, 10), HeaderWord(data, 13), h.gx, h.gz, Triple(data, 18),
        [], [], [], [])
  }

  function SignedWords(ws: seq<int>): seq<int> { seq(|ws|, i requires 0 <= i < |ws| => Signed16(ws[i])) }

  /** The first index at or after `n` whose entry is not below `bound`, if any. */
  ghost predicate FirstTooLarge(ws: seq<int>, bound: int, at: int) {
    0 <= at < |ws| && ws[at] >= bound && forall j :: 0 <= j < at ==> ws[j] < bound
  }

  ghost predicate Climbs(starts: seq<int>) {
    forall k :: 0 <= k < |starts| - 1 ==> starts[k] <= starts[k + 1]
  }

  ghost predicate AllBelow(ws: seq<int>, bound: int) { forall j :: 0 <= j < |ws| ==> ws[j] < bound }

  /** The table checks of the code, in its order. */
  ghost predicate TableVerdict(o: FileOccluders, vc: nat, tc: nat, r: Result<FileOccluders>) {
    var last := |o.cellStart| - 1;
    if !AllBelow(o.tris, vc) then r.Err? && r.error.TriangleIndex? && FirstTooLarge(o.tris, vc, r.error.at)
    else if last < 0 || o.cellStart[0] != 0 || o.cellStart[last] != |o.cellTris| then r == Err(CellTable)
    else if !Climbs(o.cellStart) then
      r.Err? && r.error.NonMonotonicCell? && 0 <= r.error.at < last
          && o.cellStart[r.error.at] > o.cellStart[r.error.at + 1]
    else if !AllBelow(o.cellTris, tc) then r.Err? && r.error.CellTriangleIndex?
        && FirstTooLarge(o.cellTris, tc, r.error.at)
    else r == Ok(o)
  }

  /** Reads a table record by record, stopping at the first entry that is not below `bound`. */
  method GetWords(data: seq<byte>, off: nat, n: nat, w: nat, bound: int) returns (ws: seq<int>, bad: Option<int>)
    requires off + Span(n, w) <= |data|
    ensures bad.None? ==> ws == ReadWords(data, off, n, w) && AllBelow(ws, bound)
    ensures bad.Some? ==>
            FirstTooLarge(ReadWords(data, off, n, w), bound, bad.value) && !AllBelow(ReadWords(data, off, n, w), bound)
  {
    var out := new int[n](_ => 0);
    var at := off;
    SpanStep(0, w);
    hide Span;
    for i := 0 to n
      invariant at == off + Span(i, w)
      invariant forall j :: 0 <= j < i ==> out[j] == ReadWords(data, off, n, w)[j] < bound
    {
      ReadWordsAt(data, off, n, w, i);
      SpanStep(i, w);
      var idx := Word(data[at..at + w]);
      if idx >= bound {
        return [], Some(i);
      }
      out[i] := idx;
      at := at + w;
    }
    return out[..], None;
  }

  method GetVertices(data: seq<byte>, off: nat, n: nat) returns (verts: seq<int>)
    requires off + Span(n, 2) <= |data|
    ensures verts == SignedWords(ReadWords(data, off, n, 2))
  {
    var out := new int[n](_ => 0);
    var at := off;
    for i := 0 to n
      invariant at == off + Span(i, 2)
      invariant forall j :: 0 <= j < i ==> out[j] == Signed16(ReadWords(data, off, n, 2)[j])
    {
      ReadWordsAt(data, off, n, 2, i);
      out[i] := Signed16(Word(data[at..at + 2]));
      at := at + 2;
    }
    verts := out[..];
  }

  /** The table checks of the code on the tables it has read; `cellTris` is read last. */
  method CheckCells(cellStart: seq<int>, cells: nat, refs: int) returns (error: Option<ParseError>)
    requires |cellStart| == cells + 1
    ensures error == Some(CellTable) <==> cellStart[0] != 0 || cellStart[cells] != refs
    ensures error.None? ==> Climbs(cellStart)
    ensures error.Some? && error.value != CellTable ==> !Climbs(cellStart)
    ensures error.Some? && error.value != CellTable ==>
              error.value.NonMonotonicCell? && 0 <= error.value.at < cells
                  && cellStart[error.value.at] > cellStart[error.value.at + 1]
  {
    if cellStart[0] != 0 || cellStart[cells] != refs {
      return Some(CellTable);
    }
    for i := 0 to cells
      invariant forall k :: 0 <= k < i ==> cellStart[k] <= cellStart[k + 1]
    {
      if cellStart[i] > cellStart[i + 1] {
        return Some(NonMonotonicCell(i));
      }
    }
    return None;
  }

  /** The float checks on the header of `data`. */
  function Verdict(data: seq<byte>): Option<ParseError>
    requires |data| >= HEADER_SIZE
  {
    FloatError(Triple(data, 4), Triple(data, 7), Triple(data, 10), HeaderWord(data, 13), Triple(data, 18))
  }

  lemma NeverTooLarge(data: seq<byte>, off: nat, n: nat, at: int)
    requires off + Span(n, 4) <= |data|
    ensures !FirstTooLarge(ReadWords(data, off, n, 4), Limit(4), at)
  {
  }

  method ParseTables(data: seq<byte>, h: Header) returns (r: Result<FileOccluders>)
    requires ParseHeader(data) == Ok(h)
    ensures TableVerdict(Tables(data, h), h.vc, h.tc, r)
  {
    hide ParseHeader, ReadWords, SignedWords, Triple, HeaderWord, Span, Cells, AllBelow, FirstTooLarge, Limit, Climbs,
         Frame;
    HeaderFits(data, h);
    var cells: nat := Cells(h.gx, h.gz);
    ghost var spec := Tables(data, h);
    var off := HEADER_SIZE;
    var verts := GetVertices(data, off, 3 * h.vc);
    off := off + Span(3 * h.vc, 2);
    var tris, badTri := GetWords(data, off, 3 * h.tc, h.width, h.vc);
    assert badTri.None? ==> tris == spec.tris;
    if badTri.Some? {
      return Err(TriangleIndex(badTri.value));
    }
    off := off + Span(3 * h.tc, h.width);
    var cellStart, badCell := GetWords(data, off, cells + 1, 4, Limit(4));
    assert badCell.None? by {
      if badCell.Some? { NeverTooLarge(data, off, cells + 1, badCell.value); }
    }
    assert cellStart == spec.cellStart;
    off := off + Span(cells + 1, 4);
    var cellError := CheckCells(cellStart, cells, h.refs);
    if cellError.Some? {
      return Err(cellError.value);
    }
    var cellTris, badRef := GetWords(data, off, h.refs, h.width, h.tc);
    if badRef.Some? {
      return Err(CellTriangleIndex(badRef.value));
    }
    return Ok(Frame(data, h).(verts := verts, tris := tris, cellStart := cellStart, cellTris := cellTris));
  }

  method Parse(data: seq<byte>) returns (r: Result<FileOccluders>)
    ensures ParseHeader(data).Err? ==> r == Err(ParseHeader(data).error)
    ensures ParseHeader(data).Ok? && Verdict(data).Some? ==> r == Err(Verdict(data).value)
    ensures ParseHeader(data).Ok? && Verdict(data).None? ==>
              var h := ParseHeader(data).value; TableVerdict(Tables(data, h), h.vc, h.tc, r)
  {
    var header := ParseHeader(data);
    if header.Err? {
      return Err(header.error);
    }
    HeaderFits(data, header.value);
    var floatError := Verdict(data);
    if floatError.Some? {
      return Err(floatError.value);
    }
    hide ParseHeader, Verdict, TableVerdict, Tables;
    r := ParseTables(data, header.value);
  }

  // ---- Round trip ---------------------------------------------------------------------------------

  /** An occluder within the limits of the format. */
  ghost predicate Saveable(o: FileOccluders) {
    && Typed(o) && Shaped(o) && o.Indexable()
    && o.VertexCount() <= MAX_VERTICES && o.TriangleCount() <= MAX_TRIANGLES
    && (o.VertexCount() == 0 <==> o.TriangleCount() == 0)
    && o.gridX <= MAX_GRID_DIM && o.gridZ <= MAX_GRID_DIM && Cells(o.gridX, o.gridZ) <= MAX_CELL_COUNT
    && |o.cellTris| <= MAX_CELL_REFS && EncodedSize(o) <= MAX_FILE_BYTES
    && FloatError(o.boundsMin, o.boundsMax, o.origin, o.cellSize, o.scale) == None
  }

  function HeaderOf(o: FileOccluders): Header
    requires o.gridX >= 0 && o.gridZ >= 0
  {
    Header(Width(o), o.VertexCount(), o.TriangleCount(), o.gridX, o.gridZ, |o.cellTris|)
  }

  ghost function AtVertices(): nat { Span(HEADER_WORDS, 4) }
  ghost function AtTris(o: FileOccluders): nat { AtVertices() + Span(|o.verts|, 2) }
  ghost function AtCells(o: FileOccluders): nat { AtTris(o) + Span(|o.tris|, Width(o)) }
  ghost function AtRefs(o: FileOccluders): nat { AtCells(o) + Span(|o.cellStart|, 4) }

  /** The table `ws` stands at `off`. */
  ghost predicate Holds(data: seq<byte>, off: nat, ws: seq<int>, w: nat) {
    Unsigned(ws) && off + Span(|ws|, w) <= |data| && data[off..off + Span(|ws|, w)] == Flat(ws, w)
  }

  lemma ReadHeld(data: seq<byte>, off: nat, ws: seq<int>, w: nat)
    requires Holds(data, off, ws, w) && Fit(ws, w)
    ensures off + Span(|ws|, w) <= |data| && ReadWords(data, off, |ws|, w) == ws
  {
    hide Flat, Span, Fit;
    ReadFlat(data, off, ws, w);
  }

  lemma Slices(h: seq<byte>, v: seq<byte>, t: seq<byte>, c: seq<byte>, r: seq<byte>)
    ensures var d := h + v + t + c + r;
            var i, j, k, l := |h|, |h| + |v|, |h| + |v| + |t|, |h| + |v| + |t| + |c|;
            d[..i] == h && d[i..j] == v && d[j..k] == t && d[k..l] == c && d[l..] == r
  {
  }

  lemma FiveHeld(h: seq<int>, v: seq<int>, t: seq<int>, c: seq<int>, r: seq<int>, w: nat)
    requires Unsigned(h) && Unsigned(v) && Unsigned(t) && Unsigned(c) && Unsigned(r)
    ensures var data := Flat(h, 4) + Flat(v, 2) + Flat(t, w) + Flat(c, 4) + Flat(r, w);
            var j := Span(|h|, 4) + Span(|v|, 2);
            var k := j + Span(|t|, w);
            var l := k + Span(|c|, 4);
            && |data| == l + Span(|r|, w)
            && Holds(data, 0, h, 4) && Holds(data, Span(|h|, 4), v, 2) && Holds(data, j, t, w)
            && Holds(data, k, c, 4) && Holds(data, l, r, w)
  {
    hide Flat, Span, Unsigned;
    Slices(Flat(h, 4), Flat(v, 2), Flat(t, w), Flat(c, 4), Flat(r, w));
  }

  lemma WordCounts(o: FileOccluders)
    ensures |HeaderWords(o)| == HEADER_WORDS && |VertexWords(o.verts)| == |o.verts|
  {
  }

  /** Where each table stands in the encoding. */
  lemma Sections(o: FileOccluders)
    requires Typed(o)
    ensures var data := Encode(o);
            && |data| == AtRefs(o) + Span(|o.cellTris|, Width(o))
            && Holds(data, 0, HeaderWords(o), 4)
            && Holds(data, AtVertices(), VertexWords(o.verts), 2)
            && Holds(data, AtTris(o), o.tris, Width(o))
            && Holds(data, AtCells(o), o.cellStart, 4)
            && Holds(data, AtRefs(o), o.cellTris, Width(o))
  {
    hide Flat, Span, HeaderWords, VertexWords, Width, Unsigned, Holds, Typed, Fit;
    WordsNonNeg(o);
    WordCounts(o);
    FiveHeld(HeaderWords(o), VertexWords(o.verts), o.tris, o.cellStart, o.cellTris, Width(o));
  }

  lemma HeaderWordRead(o: FileOccluders, k: nat)
    requires Typed(o) && k < HEADER_WORDS
    ensures |Encode(o)| >= HEADER_SIZE && HeaderWord(Encode(o), k) == HeaderWords(o)[k]
  {
    var data := Encode(o);
    Sections(o);
    HeaderTyped(o);
    WordCounts(o);
    assert Span(HEADER_WORDS, 4) == HEADER_SIZE && Span(k, 4) == 4 * k;
    hide HeaderWords, Flat, Encode, ReadWords, Word, Fit, Holds, Typed, AtRefs, AtTris, AtCells;
    ReadHeld(data, 0, HeaderWords(o), 4);
    ReadWordsAt(data, 0, HEADER_WORDS, 4, k);
  }

  lemma FirstByte(s: seq<byte>)
    requires s != []
    ensures s[0] == Word(s) % 256
  {
    Digit(s[0], Word(s[1..]));
  }

  lemma HeaderBytesRead(o: FileOccluders)
    requires Typed(o)
    ensures |Encode(o)| >= HEADER_SIZE && Encode(o)[..4] == MAGIC && Encode(o)[12] == Width(o)
  {
    var data := Encode(o);
    HeaderWordRead(o, 0);
    HeaderWordRead(o, 3);
    var words := HeaderWords(o);
    assert words[0] == Word(MAGIC) && words[3] == Width(o);
    hide Encode, HeaderWords, Word;
    BytesOfWord(data[..4]);
    BytesOfWord(MAGIC);
    assert data[4 * 0..4 * 0 + 4] == data[..4];
    FirstByte(data[12..16]);
  }

  /** What `ParseHeader` sees of an encoding. */
  lemma CountsRead(o: FileOccluders)
    requires Typed(o)
    ensures var data := Encode(o);
            && |data| >= HEADER_SIZE
            && HeaderWord(data, 1) == FILE_VERSION && HeaderWord(data, 2) == FLAGS_QUANTIZE
            && HeaderWord(data, 14) == o.gridX && HeaderWord(data, 15) == o.gridZ
            && HeaderWord(data, 16) == o.VertexCount() && HeaderWord(data, 17) == o.TriangleCount()
  {
    hide Encode, HeaderWord, Typed;
    HeaderWordRead(o, 1); HeaderWordRead(o, 2);
    HeaderWordRead(o, 14); HeaderWordRead(o, 15);
    HeaderWordRead(o, 16); HeaderWordRead(o, 17);
  }

  lemma LengthOfEncoding(o: FileOccluders)
    requires Typed(o) && Shaped(o)
    ensures |Encode(o)| == EncodedSize(o)
  {
    Sections(o);
    SizeOfTables(o);
    WordCounts(o);
    hide Encode, HeaderWords, VertexWords, Span, Holds, EncodedSize, Typed, Shaped;
  }

  lemma HeaderRoundTrip(o: FileOccluders)
    requires Saveable(o)
    ensures ParseHeader(Encode(o)) == Ok(HeaderOf(o))
  {
    var width := Width(o);
    assert 2 <= width <= 4;
    HeaderBytesRead(o);
    CountsRead(o);
    LengthOfEncoding(o);
    RecordsOf(|o.cellTris|, width);
    hide Encode, HeaderWord, Width, Need, Cells, Typed, Occluders.Indexable, FloatError;
  }

  lemma RecordsOf(n: nat, w: nat)
    requires w > 0
    ensures (n * w) % w == 0 && (n * w) / w == n
  {
    DivModUnique(w, 0, n);
  }

  lemma TripleRead(o: FileOccluders, k: nat)
    requires Typed(o) && k + 2 < HEADER_WORDS
    ensures |Encode(o)| >= HEADER_SIZE
    ensures Triple(Encode(o), k) == Vec3(HeaderWords(o)[k], HeaderWords(o)[k + 1], HeaderWords(o)[k + 2])
  {
    hide Encode, HeaderWord, HeaderWords, Typed;
    HeaderWordRead(o, k); HeaderWordRead(o, k + 1); HeaderWordRead(o, k + 2);
  }

  lemma FloatsRoundTrip(o: FileOccluders)
    requires Typed(o)
    ensures var data := Encode(o);
            && |data| >= HEADER_SIZE
            && Triple(data, 4) == o.boundsMin && Triple(data, 7) == o.boundsMax && Triple(data, 10) == o.origin
            && HeaderWord(data, 13) == o.cellSize && Triple(data, 18) == o.scale
  {
    hide Encode, HeaderWord, Triple, Typed;
    TripleRead(o, 4); TripleRead(o, 7); TripleRead(o, 10); TripleRead(o, 18);
    HeaderWordRead(o, 13);
  }

  lemma IndicesFit(o: FileOccluders)
    requires Saveable(o)
    ensures Fit(o.tris, Width(o)) && Fit(o.cellTris, Width(o)) && Fit(VertexWords(o.verts), 2)
    ensures SignedWords(VertexWords(o.verts)) == o.verts
  {
    Limits();
    var n := Larger(o.VertexCount(), o.TriangleCount());
    assert n < Limit(Width(o));
    hide Limit;
    assert Limit(2) == 0x1_0000;
  }

  lemma TablesRoundTrip(o: FileOccluders)
    requires Saveable(o)
    ensures ParseHeader(Encode(o)) == Ok(HeaderOf(o)) && Tables(Encode(o), HeaderOf(o)) == o
  {
    hide Encode, ParseHeader, VertexWords, SignedWords, Fit, Span, Cells, ReadWords, Triple, HeaderWord, Saveable,
         Holds, Width, Typed;
    ShapeFacts(o);
    IndicesFit(o);
    var data, h := Encode(o), HeaderOf(o);
    HeaderRoundTrip(o);
    FloatsRoundTrip(o);
    Sections(o);
    HeaderFits(data, h);
    ReadHeld(data, AtVertices(), VertexWords(o.verts), 2);
    ReadHeld(data, AtTris(o), o.tris, h.width);
    ReadHeld(data, AtCells(o), o.cellStart, 4);
    ReadHeld(data, AtRefs(o), o.cellTris, h.width);
  }

  lemma ShapeFacts(o: FileOccluders)
    requires Saveable(o)
    ensures Typed(o) && Shaped(o) && o.gridX >= 1 && o.gridZ >= 1
    ensures |VertexWords(o.verts)| == |o.verts| == 3 * o.VertexCount() && |o.tris| == 3 * o.TriangleCount()
    ensures |o.cellStart| == Cells(o.gridX, o.gridZ) + 1 && AtVertices() == HEADER_SIZE && Fit(o.cellStart, 4)
  {
  }

  /** Parsing what was saved gives back the occluder exactly when it is within the limits of the format. */
  method SaveThenParse(o: FileOccluders) returns (r: Result<FileOccluders>)
    requires Typed(o) && Shaped(o)
    ensures r == Ok(o) <==> Saveable(o)
  {
    var buf := Save(o);
    ghost var data := buf[..];
    hide Encode, ParseHeader, Tables, Triple, HeaderWord, FloatError, Saveable, TableVerdict, Typed, Shaped;
    r := Parse(buf[..]);
    if Saveable(o) {
      ReadsBack(o, r);
    }
    if r == Ok(o) {
      AcceptedIsSaveable(o, ParseHeader(data).value);
    }
  }

  lemma ReadsBack(o: FileOccluders, r: Result<FileOccluders>)
    requires Saveable(o)
    ensures var data := Encode(o);
      && ParseHeader(data).Ok? && |data| >= HEADER_SIZE && Verdict(data).None?
      && (var h := ParseHeader(data).value; TableVerdict(Tables(data, h), h.vc, h.tc, r) ==> r == Ok(o))
  {
    hide Encode, ParseHeader, Tables, Triple, HeaderWord, FloatError;
    TablesRoundTrip(o);
    FloatsRoundTrip(o);
    SavedPassesChecks(o, HeaderOf(o));
  }

  lemma AcceptedIsSaveable(o: FileOccluders, h: Header)
    requires Typed(o) && Shaped(o) && |Encode(o)| >= HEADER_SIZE
    requires ParseHeader(Encode(o)) == Ok(h) && Verdict(Encode(o)) == None
    requires TableVerdict(Tables(Encode(o), h), h.vc, h.tc, Ok(o))
    ensures Saveable(o)
  {
    var data := Encode(o);
    ParsedIsSafe(data, h, o);
    AcceptedHeader(o, h);
    FloatsRoundTrip(o);
    hide Encode, ParseHeader, Tables, Triple, HeaderWord, FloatError, TableVerdict, Typed, Occluders.Indexable;
  }

  lemma AcceptedHeader(o: FileOccluders, h: Header)
    requires Typed(o) && Shaped(o) && ParseHeader(Encode(o)) == Ok(h)
    requires TableVerdict(Tables(Encode(o), h), h.vc, h.tc, Ok(o))
    ensures o.VertexCount() <= MAX_VERTICES && o.TriangleCount() <= MAX_TRIANGLES
    ensures (o.VertexCount() == 0 <==> o.TriangleCount() == 0) && |o.cellTris| <= MAX_CELL_REFS
    ensures o.gridX <= MAX_GRID_DIM && o.gridZ <= MAX_GRID_DIM && Cells(o.gridX, o.gridZ) <= MAX_CELL_COUNT
    ensures EncodedSize(o) <= MAX_FILE_BYTES
  {
    hide Encode, HeaderWord, Tables, TableVerdict, Typed, Shaped, Need, Cells, ParseHeader, EncodedSize;
    var data := Encode(o);
    CountsRead(o);
    LengthOfEncoding(o);
    HeaderLimits(data, h);
    TablesShape(data, h);
    Accepted(Tables(data, h), h.vc, h.tc, o);
  }

  lemma HeaderLimits(data: seq<byte>, h: Header)
    requires ParseHeader(data) == Ok(h)
    ensures HEADER_SIZE <= |data| <= MAX_FILE_BYTES && h.refs <= MAX_CELL_REFS
    ensures h.vc == HeaderWord(data, 16) <= MAX_VERTICES && h.tc == HeaderWord(data, 17) <= MAX_TRIANGLES
    ensures h.vc == 0 <==> h.tc == 0
    ensures HeaderWord(data, 14) <= MAX_GRID_DIM && HeaderWord(data, 15) <= MAX_GRID_DIM
    ensures Cells(HeaderWord(data, 14), HeaderWord(data, 15)) <= MAX_CELL_COUNT
  {
    hide HeaderWord, Need, Cells;
  }

  lemma SavedPassesChecks(o: FileOccluders, h: Header)
    requires o.Indexable() && h.vc == o.VertexCount() && h.tc == o.TriangleCount()
    ensures forall r :: TableVerdict(o, h.vc, h.tc, r) ==> r == Ok(o)
  {
    TilesClimb(o.cellStart, |o.cellTris|);
  }

  lemma TilesClimb(starts: seq<int>, total: int)
    requires Tiles(starts, total)
    ensures Climbs(starts)
  {
  }

  /** Different occluders have different encodings. */
  lemma EncodeInjective(a: FileOccluders, b: FileOccluders)
    requires Saveable(a) && Saveable(b) && Encode(a) == Encode(b)
    ensures a == b
  {
    TablesRoundTrip(a);
    TablesRoundTrip(b);
    hide Encode, ParseHeader, Tables;
  }

  // ---- What an accepted file gives the query ---------------------------------------------------------

  lemma {:induction false} ClimbOrdered(starts: seq<int>, i: nat, j: nat)
    requires Climbs(starts) && i <= j < |starts|
    ensures starts[i] <= starts[j]
    decreases j
  {
    if i < j {
      ClimbOrdered(starts, i, j - 1);
      assert starts[j - 1] <= starts[j - 1 + 1];
    }
  }

  /** The checks that a table set passes, from the verdict. */
  lemma Accepted(t: FileOccluders, vc: nat, tc: nat, o: FileOccluders)
    requires TableVerdict(t, vc, tc, Ok(o))
    ensures o == t && AllBelow(o.tris, vc) && AllBelow(o.cellTris, tc) && Climbs(o.cellStart) && |o.cellStart| >= 1
    ensures o.cellStart[0] == 0 && o.cellStart[|o.cellStart| - 1] == |o.cellTris|
  {
    hide AllBelow, Climbs, FirstTooLarge;
  }

  lemma ClimbTiles(starts: seq<int>, total: int)
    requires Climbs(starts) && |starts| >= 1 && starts[0] == 0 && starts[|starts| - 1] == total
    ensures Tiles(starts, total)
  {
    forall i, j | 0 <= i <= j < |starts|
      ensures starts[i] <= starts[j]
    {
      ClimbOrdered(starts, i, j);
    }
  }

  /** Every table access of the query is in range on whatever `parse` accepts. */
  lemma ParsedIsSafe(data: seq<byte>, h: Header, o: FileOccluders)
    requires ParseHeader(data) == Ok(h) && Verdict(data) == None
    requires TableVerdict(Tables(data, h), h.vc, h.tc, Ok(o))
    ensures o.Indexable()
    ensures Finite(o.cellSize) && Key(o.cellSize) > 0
  {
    hide ParseHeader, Tables, TableVerdict, Finite, Key, AxisError, Tiles, HeaderWord, Triple, Climbs;
    HeaderFits(data, h);
    TablesShape(data, h);
    Accepted(Tables(data, h), h.vc, h.tc, o);
    ClimbTiles(o.cellStart, |o.cellTris|);
  }

  lemma TablesShape(data: seq<byte>, h: Header)
    requires ParseHeader(data) == Ok(h)
    ensures var o := Tables(data, h);
            && |o.verts| == 3 * h.vc && |o.tris| == 3 * h.tc && |o.cellTris| == h.refs
            && |o.cellStart| == o.gridX * o.gridZ + 1 && o.gridX == h.gx && o.gridZ == h.gz
            && o.cellSize == HeaderWord(data, 13)
            && (forall i :: 0 <= i < |o.tris| ==> o.tris[i] >= 0)
            && (forall i :: 0 <= i < |o.cellTris| ==> o.cellTris[i] >= 0)
  {
    HeaderFits(data, h);
    hide ParseHeader, Span, HeaderWord;
  }

  function Pow2(n: nat): nat { if n == 0 then 1 else 2 * Pow2(n - 1) }

  /** The number a finite single-precision word stands for. */
  function Value(bits: int): real
    requires Float32(bits)
  {
    var mag := if bits >= 0x8000_0000 then bits - 0x8000_0000 else bits;
    var e, f := mag / 0x80_0000, mag % 0x80_0000;
    var m := if e == 0 then f else 0x80_0000 + f;
    PowPositive(150);
    var v := (m * Pow2(if e == 0 then 1 else e)) as real / Pow2(150) as real;
    if bits >= 0x8000_0000 then -v else v
  }

  lemma {:induction false} PowPositive(n: nat)
    ensures Pow2(n) >= 1
  {
    if n > 0 { PowPositive(n - 1); }
  }

  // ---- Words in the order of their numbers ---------------------------------------------------------

  /** The magnitude of a word, in units of 2^-150 times a power that all share. */
  function Magnitude(mag: int): int
    requires 0 <= mag < 0x8000_0000
  {
    var e, f := mag / 0x80_0000, mag % 0x80_0000;
    (if e == 0 then f else 0x80_0000 + f) * Pow2(if e == 0 then 1 else e)
  }

  lemma {:induction false} PowGrows(m: nat, n: nat)
    requires m < n
    ensures 2 * Pow2(m) <= Pow2(n)
    decreases n
  {
    if m + 1 < n { PowGrows(m, n - 1); }
  }

  lemma Products(m: int, p: int, n: int, q: int)
    requires 0 <= m < 2 * n && 1 <= p && 2 * p <= q && n >= 0
    ensures m * p < n * q
  {
    NonNeg(2 * n - m - 1, p - 1);
    assert 2 * n * p - m * p == (2 * n - m - 1) * (p - 1) + (2 * n - m - 1) + p;
    NonNeg(n, q - 2 * p);
    assert n * q == n * (q - 2 * p) + 2 * n * p;
  }

  lemma SameExponent(m: int, n: int, p: int)
    requires m < n && p >= 1
    ensures m * p < n * p
  {
    NonNeg(n - m - 1, p - 1);
    assert n * p - m * p == (n - m - 1) * (p - 1) + (n - m - 1) + p;
  }

  lemma MagnitudeOrder(a: int, b: int)
    requires 0 <= a < b < 0x8000_0000
    ensures Magnitude(a) < Magnitude(b)
  {
    var e, f := a / 0x80_0000, b / 0x80_0000;
    var m := if e == 0 then a % 0x80_0000 else 0x80_0000 + a % 0x80_0000;
    var n := if f == 0 then b % 0x80_0000 else 0x80_0000 + b % 0x80_0000;
    var i: nat, j: nat := if e == 0 then 1 else e, if f == 0 then 1 else f;
    PowPositive(i);
    PowPositive(j);
    if i == j {
      SameExponent(m, n, Pow2(i));
    } else {
      PowGrows(i, j);
      Products(m, Pow2(i), n, Pow2(j));
    }
  }

  lemma ValueOfWord(bits: int)
    requires Float32(bits)
    ensures Pow2(150) >= 1
    ensures Value(bits) == (if bits >= 0x8000_0000 then -(Magnitude(bits - 0x8000_0000)) else Magnitude(bits)) as real
                           / Pow2(150) as real
  {
    PowPositive(150);
    hide Pow2;
    if bits >= 0x8000_0000 {
      Negated(Magnitude(bits - 0x8000_0000), Pow2(150));
    }
  }

  lemma Negated(n: int, d: int)
    requires d >= 1
    ensures -(n as real / d as real) == (-n) as real / d as real
  {
    assert (-n) as real == -(n as real);
  }

  lemma SameDivisor(m: int, n: int, d: int)
    requires d >= 1
    ensures m < n <==> m as real / d as real < n as real / d as real
  {
    if m < n {
      Quotients(m as real, n as real, d as real);
    } else if n < m {
      Quotients(n as real, m as real, d as real);
    }
  }

  lemma Quotients(a: real, b: real, d: real)
    requires a < b && d > 0.0
    ensures a / d < b / d
  {
    assert (b - a) / d > 0.0;
    assert b / d - a / d == (b - a) / d;
  }

  lemma MagnitudeZero(mag: int)
    requires 0 <= mag < 0x8000_0000
    ensures Magnitude(mag) >= 0 && Magnitude(0) == 0
  {
    if mag > 0 { MagnitudeOrder(0, mag); }
  }

  /** The code orders words by `Key`; that is the order of their numbers. */
  lemma KeyIsOrder(a: int, b: int)
    requires Float32(a) && Float32(b)
    ensures Key(a) < Key(b) <==> Value(a) < Value(b)
  {
    hide Magnitude, Value, Pow2;
    ValueOfWord(a);
    ValueOfWord(b);
    var x := if a >= 0x8000_0000 then a - 0x8000_0000 else a;
    var y := if b >= 0x8000_0000 then b - 0x8000_0000 else b;
    MagnitudeZero(x);
    MagnitudeZero(y);
    if x < y { MagnitudeOrder(x, y); } else if y < x { MagnitudeOrder(y, x); }
    var p := if a >= 0x8000_0000 then -Magnitude(x) else Magnitude(x);
    var q := if b >= 0x8000_0000 then -Magnitude(y) else Magnitude(y);
    if 0 < x { MagnitudeOrder(0, x); }
    if 0 < y { MagnitudeOrder(0, y); }
    SameDivisor(p, q, Pow2(150));
  }

  /** The words of 0, 1, -3 and the least positive number. */
  lemma KnownWords()
    ensures Value(0) == 0.0 && Value(0x3F80_0000) == 1.0 && Value(0xC040_0000) == -3.0
    ensures Value(1) * Pow2(149) as real == 1.0
  {
    hide Value, Pow2, Magnitude;
    KnownMagnitudes();
    ValueOfWord(0);
    ValueOfWord(0x3F80_0000);
    ValueOfWord(0xC040_0000);
    ValueOfWord(1);
    var unit := Pow2(150) as real;
    WholeQuotient(1, Pow2(150));
    WholeQuotient(-3, Pow2(150));
    assert 2.0 / unit * Pow2(149) as real == 1.0 by { HalfPower(Pow2(149), Pow2(150)); }
  }

  lemma WholeQuotient(k: int, d: int)
    requires d >= 1
    ensures (k * d) as real / d as real == k as real
  {
    assert (k * d) as real == k as real * d as real;
  }

  lemma HalfPower(p: int, q: int)
    requires p >= 1 && q == 2 * p
    ensures 2.0 / q as real * p as real == 1.0
  {
    assert q as real == 2.0 * p as real;
  }

  lemma KnownMagnitudes()
    ensures Pow2(149) >= 1 && Pow2(150) == 2 * Pow2(149)
    ensures Magnitude(0) == 0 && Magnitude(1) == 2
    ensures Magnitude(0x3F80_0000) == Pow2(150) && Magnitude(0x4040_0000) == 3 * Pow2(150)
  {
    PowStep(149);
    PowStep(0);
    PowSum(127, 23);
    PowSum(128, 22);
    TwentyThree();
    hide Pow2;
    assert Magnitude(0x3F80_0000) == 0x80_0000 * Pow2(127);
    assert Magnitude(0x4040_0000) == 0xC0_0000 * Pow2(128);
  }

  lemma PowStep(n: nat)
    ensures Pow2(n + 1) == 2 * Pow2(n) && Pow2(n) >= 1 && Pow2(0) == 1 && Pow2(1) == 2
  {
    PowPositive(n);
    assert Pow2(1) == 2 * Pow2(0);
  }

  lemma {:induction false} PowSum(m: nat, n: nat)
    ensures Pow2(m + n) == Pow2(m) * Pow2(n) && Pow2(m) >= 1 && Pow2(n) >= 1
  {
    PowPositive(m);
    PowPositive(n);
    if n > 0 {
      PowSum(m, n - 1);
      assert Pow2(m) * Pow2(n) == 2 * (Pow2(m) * Pow2(n - 1));
    }
  }

  lemma TwentyThree()
    ensures Pow2(22) == 0x40_0000 && Pow2(23) == 0x80_0000
  {
    assert Pow2(4) == 16 && Pow2(8) == 256;
    PowSum(8, 8);
    PowSum(16, 4);
    PowSum(20, 2);
  }

  /** Words are finite up to the largest exponent, of either sign. */
  lemma FiniteIff(bits: int)
    requires Float32(bits)
    ensures Finite(bits) <==> bits < 0x7F80_0000 || 0x8000_0000 <= bits < 0xFF80_0000
  {
  }

  function Numbers(v: Vec3<int>): Vec
    requires Floats(v)
  {
    Vec3(Value(v.x), Value(v.y), Value(v.z))
  }

  /** The occluder that the query works on. */
  function Denote(o: FileOccluders): Occluders<real>
    requires Floats(o.boundsMin) && Floats(o.boundsMax) && Floats(o.origin) && Floats(o.scale) && Float32(o.cellSize)
  {
    Occluders(Numbers(o.boundsMin), Numbers(o.boundsMax), Numbers(o.origin), Value(o.cellSize), o.gridX, o.gridZ,
              Numbers(o.scale), o.verts, o.tris, o.cellStart, o.cellTris)
  }

  /** What the float checks ask for, said of the numbers: finite, ordered on each axis, and no negative scale. */
  ghost predicate FloatsGood(lo: Vec3<int>, hi: Vec3<int>, origin: Vec3<int>, cellSize: int, scale: Vec3<int>)
    requires Floats(lo) && Floats(hi) && Floats(origin) && Float32(cellSize) && Floats(scale)
  {
    && Finite(cellSize) && Value(cellSize) > 0.0
    && AxisGood(lo.x, hi.x, origin.x, scale.x) && AxisGood(lo.y, hi.y, origin.y, scale.y)
    && AxisGood(lo.z, hi.z, origin.z, scale.z)
  }

  ghost predicate AxisGood(lo: int, hi: int, origin: int, scale: int)
    requires Float32(lo) && Float32(hi) && Float32(origin) && Float32(scale)
  {
    Finite(lo) && Finite(hi) && Finite(origin) && Finite(scale) && Value(lo) <= Value(hi) && Value(scale) >= 0.0
  }

  lemma AxisPassesIff(axis: int, lo: int, hi: int, origin: int, scale: int)
    requires Float32(lo) && Float32(hi) && Float32(origin) && Float32(scale)
    ensures AxisError(axis, lo, hi, origin, scale) == None <==> AxisGood(lo, hi, origin, scale)
  {
    hide Value, Finite;
    KeyIsOrder(hi, lo);
    KeyIsOrder(scale, 0);
    ZeroValue();
  }

  lemma ZeroValue()
    ensures Value(0) == 0.0
  {
    PowPositive(150);
  }

  /** The checks accept exactly the good floats: none that is good is refused, and none that is not is accepted. */
  lemma FloatsPassIff(lo: Vec3<int>, hi: Vec3<int>, origin: Vec3<int>, cellSize: int, scale: Vec3<int>)
    requires Floats(lo) && Floats(hi) && Floats(origin) && Float32(cellSize) && Floats(scale)
    ensures FloatError(lo, hi, origin, cellSize, scale) == None <==> FloatsGood(lo, hi, origin, cellSize, scale)
  {
    hide Value, Finite, AxisError, AxisGood;
    AxisPassesIff(0, lo.x, hi.x, origin.x, scale.x);
    AxisPassesIff(1, lo.y, hi.y, origin.y, scale.y);
    AxisPassesIff(2, lo.z, hi.z, origin.z, scale.z);
    KeyIsOrder(0, cellSize);
    ZeroValue();
  }

  /** So every accepted file meets what `SegmentBlocked` asks for, for every segment, and its numbers are in order. */
  lemma ParsedIsQueryable(data: seq<byte>, h: Header, o: FileOccluders)
    requires ParseHeader(data) == Ok(h) && Verdict(data) == None
    requires TableVerdict(Tables(data, h), h.vc, h.tc, Ok(o))
    ensures Floats(o.boundsMin) && Floats(o.boundsMax) && Floats(o.origin) && Floats(o.scale) && Float32(o.cellSize)
    ensures Denote(o).Indexable() && Denote(o).cellSize > 0.0
    ensures var q := Denote(o); var lo, hi := q.boundsMin, q.boundsMax;
      && lo == Vec3(Value(o.boundsMin.x), Value(o.boundsMin.y), Value(o.boundsMin.z))
      && hi == Vec3(Value(o.boundsMax.x), Value(o.boundsMax.y), Value(o.boundsMax.z))
      && q.scale == Vec3(Value(o.scale.x), Value(o.scale.y), Value(o.scale.z))
      && lo.x <= hi.x && lo.y <= hi.y && lo.z <= hi.z && q.scale.x >= 0.0 && q.scale.y >= 0.0 && q.scale.z >= 0.0
  {
    ParsedIsSafe(data, h, o);
    Limits();
    assert forall k: nat :: k < HEADER_WORDS ==> Float32(HeaderWord(data, k));
    hide ParseHeader, ReadWords, SignedWords, Span, Finite, Key, FloatError, HeaderWord, Value, Pow2;
    HeaderFits(data, h);
    FloatsPassIff(o.boundsMin, o.boundsMax, o.origin, o.cellSize, o.scale);
    SameTables(o);
  }

  lemma SameTables(o: FileOccluders)
    requires Floats(o.boundsMin) && Floats(o.boundsMax) && Floats(o.origin) && Floats(o.scale) && Float32(o.cellSize)
    requires o.Indexable()
    ensures Denote(o).Indexable()
  {
    hide Value, Tiles;
  }
}
