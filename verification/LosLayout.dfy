/** The `ZLOS` file byte by byte. */
module LosLayout {
  import opened LosFormat

  function Little32(data: seq<byte>, at: nat): int
    requires at + 4 <= |data|
  {
    data[at] as int + 0x100 * data[at + 1] as int + 0x1_0000 * data[at + 2] as int + 0x100_0000 * data[at + 3] as int
  }

  lemma WordOfFour(s: seq<byte>)
    requires |s| == 4
    ensures Word(s) == s[0] as int + 0x100 * s[1] as int + 0x1_0000 * s[2] as int + 0x100_0000 * s[3] as int
  {
    assert Word(s[1..]) == s[1] + 256 * Word(s[1..][1..]) && s[1..][1..] == s[2..];
    assert Word(s[2..]) == s[2] + 256 * Word(s[2..][1..]) && s[2..][1..] == s[3..];
    assert Word(s[3..]) == s[3] + 256 * Word(s[3..][1..]) && s[3..][1..] == [];
  }

  lemma WordOfTwo(s: seq<byte>)
    requires |s| == 2
    ensures Word(s) == s[0] as int + 0x100 * s[1] as int
  {
    assert Word(s[1..]) == s[1] + 256 * Word(s[1..][1..]) && s[1..][1..] == [];
  }

  lemma HeaderWordBytes(data: seq<byte>, k: nat)
    requires |data| >= HEADER_SIZE && k < HEADER_WORDS
    ensures HeaderWord(data, k) == Little32(data, 4 * k)
  {
    WordOfFour(data[4 * k..4 * k + 4]);
  }

  // ---- What is written ------------------------------------------------------------------

  /** Magic, version 1, quantised vertices, the index width, then floats, grid and counts, each little-endian. */
  lemma HeaderLayout(o: FileOccluders)
    requires Typed(o)
    ensures var data := Encode(o);
      && |data| >= 88 && data[..4] == [0x5A, 0x4C, 0x4F, 0x53] && Little32(data, 4) == 1 && Little32(data, 8) == 1
      && data[12] == (var n := Larger(|o.verts| / 3, |o.tris| / 3);
                      if n <= 65535 then 2 else if n <= 16777215 then 3 else 4)
      && Little32(data, 16) == o.boundsMin.x && Little32(data, 20) == o.boundsMin.y
      && Little32(data, 24) == o.boundsMin.z && Little32(data, 28) == o.boundsMax.x
      && Little32(data, 32) == o.boundsMax.y && Little32(data, 36) == o.boundsMax.z
      && Little32(data, 40) == o.origin.x && Little32(data, 44) == o.origin.y && Little32(data, 48) == o.origin.z
      && Little32(data, 52) == o.cellSize && Little32(data, 56) == o.gridX && Little32(data, 60) == o.gridZ
      && Little32(data, 64) == |o.verts| / 3 && Little32(data, 68) == |o.tris| / 3
      && Little32(data, 72) == o.scale.x && Little32(data, 76) == o.scale.y && Little32(data, 80) == o.scale.z
  {
    HeaderBytesRead(o);
    var words := HeaderWords(o);
    assert words[1] == 1 && words[2] == 1;
    hide Encode, HeaderWord, Little32, Typed, Word;
    forall k: nat | k < 22
      ensures Little32(Encode(o), 4 * k) == words[k]
    {
      HeaderWordRead(o, k);
      HeaderWordBytes(Encode(o), k);
    }
    ByWord(Encode(o), words);
  }

  /** The header words, by byte. */
  lemma ByWord(data: seq<byte>, words: seq<int>)
    requires |data| >= 88 && |words| == 22 && forall k: nat :: k < 22 ==> Little32(data, 4 * k) == words[k]
    ensures Little32(data, 4) == words[1] && Little32(data, 8) == words[2]
    ensures Little32(data, 16) == words[4] && Little32(data, 20) == words[5] && Little32(data, 24) == words[6]
    ensures Little32(data, 28) == words[7] && Little32(data, 32) == words[8] && Little32(data, 36) == words[9]
    ensures Little32(data, 40) == words[10] && Little32(data, 44) == words[11] && Little32(data, 48) == words[12]
    ensures Little32(data, 52) == words[13] && Little32(data, 56) == words[14] && Little32(data, 60) == words[15]
    ensures Little32(data, 64) == words[16] && Little32(data, 68) == words[17]
    ensures Little32(data, 72) == words[18] && Little32(data, 76) == words[19] && Little32(data, 80) == words[20]
  {
    hide Little32;
    assert Little32(data, 4 * 1) == words[1] && Little32(data, 4 * 2) == words[2];
    assert Little32(data, 4 * 4) == words[4] && Little32(data, 4 * 5) == words[5] && Little32(data, 4 * 6) == words[6];
    assert Little32(data, 4 * 7) == words[7] && Little32(data, 4 * 8) == words[8] && Little32(data, 4 * 9) == words[9];
    assert Little32(data, 4 * 10) == words[10] && Little32(data, 4 * 11) == words[11];
    assert Little32(data, 4 * 12) == words[12] && Little32(data, 4 * 13) == words[13];
    assert Little32(data, 4 * 14) == words[14] && Little32(data, 4 * 15) == words[15];
    assert Little32(data, 4 * 16) == words[16] && Little32(data, 4 * 17) == words[17];
    assert Little32(data, 4 * 18) == words[18] && Little32(data, 4 * 19) == words[19];
    assert Little32(data, 4 * 20) == words[20];
  }

  /** The little-endian word of two, three or four bytes. */
  function Little(data: seq<byte>, at: int, w: int): int
    requires 0 <= at && 2 <= w <= 4 && at + w <= |data|
  {
    data[at] as int + 0x100 * data[at + 1] as int + (if w >= 3 then 0x1_0000 * data[at + 2] as int else 0)
    + if w == 4 then 0x100_0000 * data[at + 3] as int else 0
  }

  /** The `w` bytes at `at` are the word `v`. */
  predicate Stands(data: seq<byte>, at: int, w: int, v: int) {
    0 <= at && 2 <= w <= 4 && at + w <= |data| && Little(data, at, w) == v
  }

  lemma WordIsLittle(s: seq<byte>)
    requires 2 <= |s| <= 4
    ensures Word(s) == Little(s, 0, |s|)
  {
    if |s| == 2 {
      WordOfTwo(s);
    } else if |s| == 3 {
      WordOfTwo(s[1..]);
    } else {
      WordOfFour(s);
    }
  }

  lemma LittleShift(data: seq<byte>, at: int, w: int)
    requires 0 <= at && 2 <= w <= 4 && at + w <= |data|
    ensures Little(data[at..at + w], 0, w) == Little(data, at, w)
  {
  }

  lemma WordHeld(data: seq<byte>, off: nat, ws: seq<int>, w: nat, i: nat)
    requires Holds(data, off, ws, w) && Fit(ws, w) && i < |ws| && 2 <= w <= 4
    ensures Stands(data, off + i * w, w, ws[i])
  {
    hide Word, Flat, Little, Fit, Holds;
    assert Span(i, w) == i * w && Span(|ws|, w) == |ws| * w;
    ReadHeld(data, off, ws, w);
    ReadWordsAt(data, off, |ws|, w, i);
    var at := off + i * w;
    assert at + w <= off + |ws| * w by { RoomFor(i, |ws|, w); }
    WordIsLittle(data[at..at + w]);
    LittleShift(data, at, w);
  }

  lemma {:induction false} RoomFor(i: nat, n: nat, w: nat)
    requires i < n
    ensures i * w + w <= n * w
  {
    assert n * w == (n - 1) * w + w;
    if i < n - 1 {
      RoomFor(i, n - 1, w);
    }
  }

  lemma WidthByte(o: FileOccluders)
    requires Typed(o)
    ensures |Encode(o)| >= 88 && Encode(o)[12] as int == Width(o) && 2 <= Width(o) <= 4
  {
    HeaderLayout(o);
    assert o.VertexCount() == |o.verts| / 3 && o.TriangleCount() == |o.tris| / 3;
    hide Encode, Typed, Little32;
  }

  lemma Vertices(o: FileOccluders)
    requires Typed(o)
    ensures Holds(Encode(o), 88, VertexWords(o.verts), 2) && Fit(VertexWords(o.verts), 2)
  {
    assert AtVertices() == 88 by { assert Span(HEADER_WORDS, 4) == 88; }
    assert Fit(VertexWords(o.verts), 2) by { Limits(); }
    hide Typed, Encode, Holds, Fit;
    Sections(o);
  }

  /** Behind the header stand the vertices, two bytes a coordinate; */
  lemma VertexLayout(o: FileOccluders, i: nat)
    requires Typed(o) && i < |o.verts|
    ensures Stands(Encode(o), 88 + 2 * i, 2, if o.verts[i] >= 0 then o.verts[i] else o.verts[i] + 65536)
  {
    Vertices(o);
    hide Typed, Encode, Holds, Fit, Stands;
    assert VertexWords(o.verts)[i] == if o.verts[i] >= 0 then o.verts[i] else o.verts[i] + 65536;
    WordHeld(Encode(o), 88, VertexWords(o.verts), 2, i);
  }

  /** behind these the triangles, in words of the index width; */
  lemma TriangleLayout(o: FileOccluders, i: nat)
    requires Saveable(o) && i < |o.tris|
    ensures Typed(o) && |Encode(o)| >= 88
    ensures var data := Encode(o); var w := data[12] as int;
      Stands(data, 88 + 2 * |o.verts| + i * w, w, o.tris[i])
  {
    hide Saveable, Encode, Stands, Holds, Width, Fit;
    TableAt(o);
    WidthByte(o);
    WordHeld(Encode(o), 88 + 2 * |o.verts|, o.tris, Width(o), i);
  }

  /** then where each cell begins, in four bytes; */
  lemma CellLayout(o: FileOccluders, i: nat)
    requires Saveable(o) && i < |o.cellStart|
    ensures Typed(o) && |Encode(o)| >= 88
    ensures var data := Encode(o); var w := data[12] as int;
      Stands(data, 88 + 2 * |o.verts| + |o.tris| * w + 4 * i, 4, o.cellStart[i])
  {
    hide Saveable, Encode, Stands, Holds, Width, Fit;
    TableAt(o);
    WidthByte(o);
    WordHeld(Encode(o), 88 + 2 * |o.verts| + |o.tris| * Width(o), o.cellStart, 4, i);
  }

  /** and last the references, in words of the index width again; nothing follows. */
  lemma ReferenceLayout(o: FileOccluders, i: nat)
    requires Saveable(o)
    ensures Typed(o) && |Encode(o)| >= 88
    ensures var data := Encode(o); var w := data[12] as int;
      var at := 88 + 2 * |o.verts| + |o.tris| * w + 4 * |o.cellStart|;
      && |data| == at + |o.cellTris| * w
      && (i < |o.cellTris| ==> Stands(data, at + i * w, w, o.cellTris[i]))
  {
    hide Saveable, Encode, Stands, Holds, Width, Fit;
    TableAt(o);
    WidthByte(o);
    if i < |o.cellTris| {
      var off := 88 + 2 * |o.verts| + |o.tris| * Width(o) + 4 * |o.cellStart|;
      WordHeld(Encode(o), off, o.cellTris, Width(o), i);
    }
  }

  lemma TableAt(o: FileOccluders)
    requires Saveable(o)
    ensures Typed(o) && Fit(o.tris, Width(o)) && Fit(o.cellTris, Width(o)) && Fit(o.cellStart, 4)
    ensures var data, w := Encode(o), Width(o); var at := 88 + 2 * |o.verts|;
      && Holds(data, at, o.tris, w) && Holds(data, at + |o.tris| * w, o.cellStart, 4)
      && Holds(data, at + |o.tris| * w + 4 * |o.cellStart|, o.cellTris, w)
      && |data| == at + |o.tris| * w + 4 * |o.cellStart| + |o.cellTris| * w
  {
    hide Encode, Holds, Saveable, Width, Typed, Fit;
    ShapeFacts(o);
    IndicesFit(o);
    Sections(o);
    var w := Width(o);
    assert Span(HEADER_WORDS, 4) == 88 && Span(|o.verts|, 2) == 2 * |o.verts| && Span(|o.tris|, w) == |o.tris| * w;
    assert Span(|o.cellStart|, 4) == 4 * |o.cellStart| && Span(|o.cellTris|, w) == |o.cellTris| * w;
  }

  // ---- What is accepted -------------------------------------------------------------------

  /** A header that is read, and nothing else: the fixed fields, the limits, and a length that fits the counts. */
  predicate HeaderGood(data: seq<byte>) {
    && 88 <= |data| <= 268_435_456 && data[0] == 0x5A && data[1] == 0x4C && data[2] == 0x4F && data[3] == 0x53
    && Little32(data, 4) == 1 && Little32(data, 8) == 1 && 2 <= data[12] <= 4
    && Little32(data, 64) <= 50_000_000 && Little32(data, 68) <= 50_000_000
    && (Little32(data, 64) == 0 <==> Little32(data, 68) == 0)
    && 1 <= Little32(data, 56) <= 1_000_000 && 1 <= Little32(data, 60) <= 1_000_000
    && Cells(Little32(data, 56), Little32(data, 60)) <= 67_108_864
    && exists refs: nat :: Tail(data, refs) && refs <= 400_000_000
  }

  /** Behind the vertices, triangles and cells there are so many references and nothing else. */
  predicate Tail(data: seq<byte>, refs: nat)
    requires |data| >= 88
  {
    var vertices, triangles, width := Little32(data, 64), Little32(data, 68), data[12];
    var cells := Cells(Little32(data, 56), Little32(data, 60));
    |data| == 88 + 6 * vertices + 3 * triangles * width + 4 * (cells + 1) + refs * width
  }

  lemma FieldWords(data: seq<byte>)
    requires |data| >= 88
    ensures HeaderWord(data, 1) == Little32(data, 4) && HeaderWord(data, 2) == Little32(data, 8)
    ensures HeaderWord(data, 14) == Little32(data, 56) && HeaderWord(data, 15) == Little32(data, 60)
    ensures HeaderWord(data, 16) == Little32(data, 64) && HeaderWord(data, 17) == Little32(data, 68)
  {
    hide HeaderWord, Little32;
    HeaderWordBytes(data, 1);
    HeaderWordBytes(data, 2);
    HeaderWordBytes(data, 14);
    HeaderWordBytes(data, 15);
    HeaderWordBytes(data, 16);
    HeaderWordBytes(data, 17);
  }

  function NeedOf(data: seq<byte>): int
    requires |data| >= 88
  {
    Need(Little32(data, 64), Little32(data, 68), data[12], Cells(Little32(data, 56), Little32(data, 60)))
  }

  /** So many bytes are so many records, within the limit. */
  predicate WholeRefs(bytes: int, width: int)
    requires width > 0
  {
    bytes >= 0 && bytes % width == 0 && bytes / width <= 400_000_000
  }

  lemma WholeRefsIff(bytes: int, width: int)
    requires width > 0
    ensures WholeRefs(bytes, width) <==> exists refs: nat :: RecordBytes(refs, width) == bytes && refs <= 400_000_000
  {
    if refs: nat :| RecordBytes(refs, width) == bytes && refs <= 400_000_000 {
      RecordsOf(refs, width);
    }
    if WholeRefs(bytes, width) {
      var refs: nat := bytes / width;
      assert RecordBytes(refs, width) == bytes;
    }
  }

  function RecordBytes(refs: nat, width: int): int { refs * width }

  lemma TailsIff(data: seq<byte>)
    requires |data| >= 88 && 2 <= data[12] <= 4
    ensures (exists refs: nat :: Tail(data, refs) && refs <= 400_000_000) <==>
            WholeRefs(|data| - NeedOf(data), data[12])
  {
    hide Little32, Cells;
    var bytes, width: int := |data| - NeedOf(data), data[12];
    WholeRefsIff(bytes, width);
    forall refs: nat
      ensures Tail(data, refs) <==> RecordBytes(refs, width) == bytes
    {
    }
    hide Tail, RecordBytes, WholeRefs;
  }

  /** `parse` goes on to the floats and tables exactly behind a good header. */
  lemma HeaderOkIff(data: seq<byte>)
    ensures ParseHeader(data).Ok? <==> HeaderGood(data)
  {
    if |data| >= 88 {
      FieldWords(data);
      MagicBytes(data);
      if 2 <= data[12] <= 4 {
        TailsIff(data);
        HeaderOkWords(data);
      }
    }
    hide Little32, HeaderWord, Cells, Need, Tail, NeedOf, WholeRefs;
  }

  lemma HeaderOkWords(data: seq<byte>)
    requires |data| >= 88 && 2 <= data[12] <= 4
    ensures NeedOf(data) == Need(HeaderWord(data, 16), HeaderWord(data, 17), data[12],
                                 Cells(HeaderWord(data, 14), HeaderWord(data, 15)))
    ensures ParseHeader(data).Ok? <==>
      && |data| <= 268_435_456 && data[..4] == MAGIC && HeaderWord(data, 1) == 1 && HeaderWord(data, 2) == 1
      && HeaderWord(data, 16) <= 50_000_000 && HeaderWord(data, 17) <= 50_000_000
      && (HeaderWord(data, 16) == 0 <==> HeaderWord(data, 17) == 0)
      && 1 <= HeaderWord(data, 14) <= 1_000_000 && 1 <= HeaderWord(data, 15) <= 1_000_000
      && Cells(HeaderWord(data, 14), HeaderWord(data, 15)) <= 67_108_864
      && WholeRefs(|data| - NeedOf(data), data[12])
  {
    hide HeaderWord, Little32, Cells, Need;
    FieldWords(data);
  }

  lemma MagicBytes(data: seq<byte>)
    requires |data| >= 4
    ensures data[..4] == MAGIC <==> data[0] == 0x5A && data[1] == 0x4C && data[2] == 0x4F && data[3] == 0x53
  {
    assert data[..4] == [data[0], data[1], data[2], data[3]];
  }
}
