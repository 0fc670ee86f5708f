/**
 * Cell addressing and the integer part of the pseudo-random draw of the
 * forest-fire model (projet/src/model.cpp): a square grid of `n` by `n`
 * cells stored row-major in vectors of `n * n` bytes.
 */
module Grid {
  import opened Wrappers

  /** `std::uint8_t` */
  type byte = x: int | 0 <= x < 256

  /** Values of `std::size_t` on the 64-bit targets the simulation is built for. */
  const SIZE_MODULUS: nat := 0x1_0000_0000_0000_0000
  /** `std::uint_fast32_t` is 64 bits wide with glibc on x86-64. */
  const FAST32_MODULUS: nat := 0x1_0000_0000_0000_0000
  /** Values of `unsigned`. */
  const UNSIGNED_MODULUS: nat := 0x1_0000_0000
  /** The Lehmer generator `r = 48271 * xi mod (2^31 - 1)`. */
  const LEHMER_MULTIPLIER: nat := 48271
  const LEHMER_MODULUS: nat := 2147483647

  /** `Model::LexicoIndices` */
  datatype Coord = Coord(row: nat, column: nat)

  datatype Direction = South | North | East | West

  predicate InGrid(c: Coord, n: nat) {
    c.row < n && c.column < n
  }

  /** The number of cells of an `n` by `n` grid. */
  function CellCount(n: nat): nat {
    n * n
  }

  /** `get_index_from_lexicographic_indices` */
  function IndexOf(c: Coord, n: nat): nat {
    c.row * n + c.column
  }

  /** `get_lexicographic_from_index` */
  function CoordOf(i: nat, n: nat): Coord
    requires n > 0
  {
    Coord(i / n, i % n)
  }

  /** A cell of the grid has an index below `n * n`, and that index leads back to it. */
  lemma CoordIndexRoundTrip(c: Coord, n: nat)
    requires InGrid(c, n)
    ensures IndexOf(c, n) < CellCount(n)
    ensures CoordOf(IndexOf(c, n), n) == c
  {
    MulLeMono(c.row + 1, n, n);
    DivModUnique(IndexOf(c, n), n, c.row, c.column);
  }

  /** Every index below `n * n` names a cell of the grid, and that cell leads back to it. */
  lemma IndexCoordRoundTrip(i: nat, n: nat)
    requires n > 0 && i < CellCount(n)
    ensures InGrid(CoordOf(i, n), n)
    ensures IndexOf(CoordOf(i, n), n) == i
  {
    var q := i / n;
    assert q * n <= i;
    MulLessCancel(q, n);
  }

  lemma MulLeMono(a: nat, b: nat, c: nat)
    requires a <= b
    ensures a * c <= b * c
  {
  }

  lemma NegMulLeMono(k: int, n: nat)
    requires k <= -1
    ensures k * n <= -(n as int)
  {
  }

  lemma MulLessCancel(q: nat, n: nat)
    requires q * n < n * n
    ensures q < n
  {
    if n <= q {
      MulLeMono(n, q, n);
    }
  }

  lemma DivModUnique(i: nat, n: nat, q: nat, r: nat)
    requires n > 0 && r < n && i == q * n + r
    ensures i / n == q && i % n == r
  {
    var q', r' := i / n, i % n;
    assert (q - q') * n == r' - r;
    SmallMultipleIsZero(q - q', n);
  }

  lemma SmallMultipleIsZero(k: int, n: nat)
    requires n > 0 && -(n as int) < k * n < n
    ensures k == 0
  {
    if k >= 1 {
      MulLeMono(1, k, n);
    } else if k <= -1 {
      NegMulLeMono(k, n);
    }
  }

  /**
   * The cell one step away in direction `dir`, as `check_direction` computes
   * it, or None when that step leaves the grid.
   */
  function Neighbour(c: Coord, dir: Direction, n: nat): (r: Option<Coord>)
    ensures InGrid(c, n) ==> (r.None? <==>
      (dir == South && c.row == n - 1) || (dir == North && c.row == 0) ||
      (dir == East && c.column == n - 1) || (dir == West && c.column == 0))
    ensures InGrid(c, n) && r.Some? ==> InGrid(r.value, n) && Steps(c, r.value) == 1
  {
    match dir
    case South => if c.row + 1 < n then Some(Coord(c.row + 1, c.column)) else None
    case North => if c.row > 0 then Some(Coord(c.row - 1, c.column)) else None
    case East => if c.column + 1 < n then Some(Coord(c.row, c.column + 1)) else None
    case West => if c.column > 0 then Some(Coord(c.row, c.column - 1)) else None
  }

  /** The Manhattan distance between two cells. */
  function Steps(a: Coord, b: Coord): nat {
    (if a.row < b.row then b.row - a.row else a.row - b.row) +
    (if a.column < b.column then b.column - a.column else a.column - b.column)
  }

  /** The integer `current_index * random_factor + m_time_step` that seeds a draw, in `size_t`. */
  function Seed(cell: nat, factor: nat, timeStep: nat): (s: nat)
    ensures s < SIZE_MODULUS
  {
    (cell * factor + timeStep) % SIZE_MODULUS
  }

  /**
   * The integer `r` of `pseudo_random(index, time_step)`; the draw itself is
   * `r / 2147483646.`, a double this model leaves to the oracles.
   */
  function Draw(index: nat, timeStep: nat): (r: nat)
    ensures r < LEHMER_MODULUS
    ensures index % SIZE_MODULUS == 0 ==> r == 0
  {
    var factor := (10000 + timeStep + 1) % SIZE_MODULUS;
    var xi := (index * factor) % SIZE_MODULUS % FAST32_MODULUS;
    ZeroProductMod(index, factor);
    (LEHMER_MULTIPLIER * xi) % FAST32_MODULUS % LEHMER_MODULUS
  }

  lemma ZeroProductMod(a: nat, b: nat)
    ensures a % SIZE_MODULUS == 0 ==> (a * b) % SIZE_MODULUS == 0
  {
    if a % SIZE_MODULUS == 0 {
      var k := a / SIZE_MODULUS;
      assert a == k * SIZE_MODULUS;
      assert a * b == (k * b) * SIZE_MODULUS;
    }
  }

  /**
   * The element count of `m_vegetation_map` and `m_fire_map` as the
   * constructor writes it: `t_discretization * t_discretization`, a product
   * of two `unsigned` values, which wraps modulo 2^32.
   */
  function AllocatedCellCount(n: nat): (count: nat)
    requires n < UNSIGNED_MODULUS
    ensures count < UNSIGNED_MODULUS
  {
    (n * n) % UNSIGNED_MODULUS
  }

  /** Below 65536 cells per side the allocated count is the cell count. */
  lemma AllocationExactBelow65536(n: nat)
    requires n < 65536
    ensures AllocatedCellCount(n) == CellCount(n)
  {
    MulLeMono(n, 65535, n);
    MulLeMono(n, 65535, 65535);
  }

  /**
   * With 65536 cells per side both vectors are empty, so the constructor's
   * write to the start cell (model.cpp:39) is out of bounds, although the
   * grid has 2^32 cells.
   */
  lemma AllocationWrapsAt65536()
    ensures CellCount(65536) == UNSIGNED_MODULUS
    ensures AllocatedCellCount(65536) == 0
    ensures !(IndexOf(Coord(0, 0), 65536) < AllocatedCellCount(65536))
  {
  }
}
