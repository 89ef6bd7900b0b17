/** The uniform grid over entity positions of `internal/game/spatial_grid.go`. */
module SpatialGrid {
  import opened Basics

  datatype CellKey = CellKey(x: int, z: int)

  const DEFAULT_CELL: real := 64.0

  predicate Within(c: (real, real), x: real, z: real, radius: real) {
    var dx := c.0 - x;
    var dz := c.1 - z;
    dx * dx + dz * dz <= radius * radius
  }

  function CellOf(v: real, cellSize: real): int
    requires cellSize > 0.0
  {
    (v / cellSize).Floor
  }

  lemma CellMonotone(a: real, b: real, cellSize: real)
    requires cellSize > 0.0 && a <= b
    ensures CellOf(a, cellSize) <= CellOf(b, cellSize)
  {
    var p, q := a / cellSize, b / cellSize;
    assert p * cellSize == a && q * cellSize == b;
    if p > q {
      assert (p - q) * cellSize > 0.0;
    }
  }

  /** In the circle, so in the square around it. */
  lemma CircleInSquare(d: real, e: real, radius: real)
    requires radius >= 0.0 && d * d + e * e <= radius * radius
    ensures -radius <= d <= radius
  {
    assert e * e >= 0.0;
    if d > radius {
      PositiveProduct(d - radius, d + radius, d * d - radius * radius);
    } else if d < -radius {
      PositiveProduct(-d - radius, radius - d, d * d - radius * radius);
    }
  }

  /** The cells and the reverse mapping describe each other, and no cell is kept empty. */
  ghost predicate Index(cells: map<CellKey, set<int>>, positions: map<int, CellKey>) {
    && (forall k :: k in cells ==> cells[k] != {})
    && (forall k, id :: k in cells && id in cells[k] ==> id in positions && positions[id] == k)
    && (forall id :: id in positions ==> positions[id] in cells && id in cells[positions[id]])
  }

  ghost function Unlinked(cells: map<CellKey, set<int>>, id: int, key: CellKey): map<CellKey, set<int>> {
    if key !in cells then cells
    else if cells[key] - {id} == {} then cells - {key}
    else cells[key := cells[key] - {id}]
  }

  ghost function Linked(cells: map<CellKey, set<int>>, id: int, key: CellKey): map<CellKey, set<int>> {
    cells[key := (if key in cells then cells[key] else {}) + {id}]
  }

  lemma UnlinkKeeps(cells: map<CellKey, set<int>>, positions: map<int, CellKey>, id: int)
    requires Index(cells, positions) && id in positions
    ensures Index(Unlinked(cells, id, positions[id]), positions - {id})
  {
    var key, after := positions[id], Unlinked(cells, id, positions[id]);
    forall k | k in after
      ensures after[k] != {} && after[k] == if k == key then cells[k] - {id} else cells[k]
    {
    }
  }

  lemma LinkKeeps(cells: map<CellKey, set<int>>, positions: map<int, CellKey>, id: int, key: CellKey)
    requires Index(cells, positions) && id !in positions
    ensures Index(Linked(cells, id, key), positions[id := key])
  {
    var after := Linked(cells, id, key);
    assert id in after[key];
    forall k | k in after
      ensures after[k] != {} && (k != key ==> k in cells && after[k] == cells[k])
    {
    }
  }

  class SpatialGrid {
    const cellSize: real
    var cells: map<CellKey, set<int>>
    var positions: map<int, CellKey>
    var coords: map<int, (real, real)>

    /** The cell index describes the coordinates. */
    ghost predicate Valid()
      reads this
    {
      && cellSize > 0.0
      && positions.Keys == coords.Keys
      && (forall id :: id in coords ==> positions[id] == KeyAt(coords[id].0, coords[id].1))
      && Index(cells, positions)
    }

    constructor (size: real)
      ensures Valid() && coords == map[]
      ensures cellSize == if size <= 0.0 then 64.0 else size
    {
      cellSize := if size <= 0.0 then DEFAULT_CELL else size;
      cells, positions, coords := map[], map[], map[];
    }

    function KeyAt(x: real, z: real): CellKey
      requires cellSize > 0.0
    {
      CellKey(CellOf(x, cellSize), CellOf(z, cellSize))
    }

    /** Takes `id` out of cell `key`, and the cell out of the index when it was the last. */
    method Unlink(id: int, key: CellKey)
      modifies this`cells
      ensures cells == Unlinked(old(cells), id, key)
    {
      if key !in cells {
        return;
      }
      var rest := cells[key] - {id};
      if rest == {} {
        cells := cells - {key};
      } else {
        cells := cells[key := rest];
      }
    }

    method Link(id: int, key: CellKey)
      modifies this`cells
      ensures cells == Linked(old(cells), id, key)
    {
      var cell := if key in cells then cells[key] else {};
      cells := cells[key := cell + {id}];
    }

    method Insert(id: int, x: real, z: real)
      requires Valid()
      modifies this
      ensures Valid() && coords == old(coords)[id := (x, z)]
    {
      hide CellOf, Index, Linked, Unlinked;
      ghost var apart := positions - {id};
      if id in positions {
        Unlink(id, positions[id]);
        UnlinkKeeps(old(cells), positions, id);
      } else {
        assert apart == positions;
      }
      var key := KeyAt(x, z);
      LinkKeeps(cells, apart, id, key);
      Link(id, key);
      positions := positions[id := key];
      coords := coords[id := (x, z)];
      assert apart[id := key] == positions;
    }

    method Remove(id: int)
      requires Valid()
      modifies this
      ensures Valid() && coords == old(coords) - {id}
    {
      hide CellOf, Index, Linked, Unlinked;
      if id !in positions {
        return;
      }
      Unlink(id, positions[id]);
      UnlinkKeeps(old(cells), positions, id);
      positions := positions - {id};
      coords := coords - {id};
    }

    method Update(id: int, x: real, z: real)
      requires Valid()
      modifies this
      ensures Valid() && coords == old(coords)[id := (x, z)]
    {
      hide CellOf, Index, Linked, Unlinked;
      var newKey := KeyAt(x, z);
      if id !in positions {
        LinkKeeps(cells, positions, id, newKey);
        Link(id, newKey);
        positions := positions[id := newKey];
        coords := coords[id := (x, z)];
        return;
      }
      var oldKey := positions[id];
      if oldKey != newKey {
        Unlink(id, oldKey);
        UnlinkKeeps(old(cells), positions, id);
        LinkKeeps(cells, positions - {id}, id, newKey);
        Link(id, newKey);
        assert (positions - {id})[id := newKey] == positions[id := newKey];
        positions := positions[id := newKey];
      }
      coords := coords[id := (x, z)];
    }

    /** The answer of a scan over all coordinates. */
    ghost function Scan(x: real, z: real, radius: real): set<int>
      reads this
    {
      set id | id in coords && radius >= 0.0
               && (coords[id].0 - x) * (coords[id].0 - x) + (coords[id].1 - z) * (coords[id].1 - z) <= radius * radius
    }

    lemma ScanIff(id: int, x: real, z: real, radius: real)
      requires radius >= 0.0
      ensures id in Scan(x, z, radius) <==> id in coords && Within(coords[id], x, z, radius)
    {
    }

    /** `key` comes before (cx, cz) in the nested loops. */
    static ghost predicate Visited(key: CellKey, minX: int, minZ: int, maxZ: int, cx: int, cz: int) {
      minZ <= key.z <= maxZ && minX <= key.x && (key.x < cx || (key.x == cx && key.z < cz))
    }

    /** What the loops have found so far: the hits in the visited cells, each once. */
    ghost predicate Found(dst: seq<int>, x: real, z: real, radius: real, minX: int, minZ: int, maxZ: int, cx: int,
        cz: int)
      reads this
      requires positions.Keys == coords.Keys
    {
      && (forall i, j :: 0 <= i < j < |dst| ==> dst[i] != dst[j])
      && (forall id :: id in dst <==>
          id in coords && Within(coords[id], x, z, radius) && Visited(positions[id], minX, minZ, maxZ, cx, cz))
    }

    method GetNeighbors(x: real, z: real, radius: real) returns (dst: seq<int>)
      requires Valid()
      ensures forall id :: id in dst <==> id in Scan(x, z, radius)
      ensures forall i, j :: 0 <= i < j < |dst| ==> dst[i] != dst[j]
    {
      dst := [];
      if radius < 0.0 {
        return;
      }
      var minX, maxX := CellOf(x - radius, cellSize), CellOf(x + radius, cellSize);
      var minZ, maxZ := CellOf(z - radius, cellSize), CellOf(z + radius, cellSize);
      hide CellOf, Within;
      var cx := minX;
      while cx <= maxX
        invariant minX <= cx
        invariant Found(dst, x, z, radius, minX, minZ, maxZ, cx, minZ)
        decreases maxX - cx
      {
        var cz := minZ;
        while cz <= maxZ
          invariant minZ <= cz
          invariant Found(dst, x, z, radius, minX, minZ, maxZ, cx, cz)
          decreases maxZ - cz
        {
          var key := CellKey(cx, cz);
          if key in cells {
            dst := AddHits(dst, key, x, z, radius, minX, minZ, maxZ);
          }
          cz := cz + 1;
        }
        cx := cx + 1;
      }
      forall id
        ensures id in Scan(x, z, radius) <==> id in coords && Within(coords[id], x, z, radius)
      {
        ScanIff(id, x, z, radius);
      }
      hide Scan;
      forall id | id in coords && Within(coords[id], x, z, radius)
        ensures Visited(positions[id], minX, minZ, maxZ, cx, minZ)
      {
        HitInRange(coords[id], x, z, radius);
      }
    }

    /** The hits of one cell; the order of iteration over it is arbitrary. */
    method AddHits(dst0: seq<int>, key: CellKey, x: real, z: real, radius: real, ghost minX: int, ghost minZ: int,
        ghost maxZ: int)
      returns (dst: seq<int>)
      requires Valid() && key in cells && minX <= key.x && minZ <= key.z <= maxZ
      requires Found(dst0, x, z, radius, minX, minZ, maxZ, key.x, key.z)
      ensures Found(dst, x, z, radius, minX, minZ, maxZ, key.x, key.z + 1)
    {
      dst := dst0;
      var left := cells[key];
      while left != {}
        invariant left <= cells[key]
        invariant forall i, j :: 0 <= i < j < |dst| ==> dst[i] != dst[j]
        invariant forall id :: id in dst <==> (id in coords && Within(coords[id], x, z, radius)
          && (Visited(positions[id], minX, minZ, maxZ, key.x, key.z) || (id in cells[key] && id !in left)))
        decreases left
      {
        ghost var some := SomeMember(left);
        var id :| id in left;
        left := left - {id};
        if Within(coords[id], x, z, radius) {
          dst := dst + [id];
        }
      }
    }

    lemma HitInRange(c: (real, real), x: real, z: real, radius: real)
      requires cellSize > 0.0 && radius >= 0.0 && Within(c, x, z, radius)
      ensures CellOf(x - radius, cellSize) <= CellOf(c.0, cellSize) <= CellOf(x + radius, cellSize)
      ensures CellOf(z - radius, cellSize) <= CellOf(c.1, cellSize) <= CellOf(z + radius, cellSize)
    {
      CircleInSquare(c.0 - x, c.1 - z, radius);
      CircleInSquare(c.1 - z, c.0 - x, radius);
      CellMonotone(x - radius, c.0, cellSize);
      CellMonotone(c.0, x + radius, cellSize);
      CellMonotone(z - radius, c.1, cellSize);
      CellMonotone(c.1, z + radius, cellSize);
    }
  }
}
