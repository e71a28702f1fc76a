/**
 * The groundwater lecture problem: point sources and boundary segments
 * read from flat parameter lists, the cell a source falls into on a
 * structured grid, and the boundary condition of a boundary position,
 * chosen by the side it lies on and the first segment of that side that
 * contains it. The parameter tree is replaced by the lists and values it
 * would return; fluid density, cell volume and depth are parameters.
 */
module GroundwaterProblem {

  datatype Option<T> = None | Some(value: T)

  /** Geometry.numberOfCells and Geometry.domainSize */
  datatype Geometry = Geometry(res0: int, res1: int, size0: real, size1: real)
  {
    predicate Admissible() {
      res0 > 0 && res1 > 0 && size0 > 0.0 && size1 > 0.0
    }
  }

  datatype Source = Source(x: real, y: real, q: real, index: int)

  datatype BoundarySegment = BoundarySegment(from: real, to: real, neumann: bool, value: real)

  datatype BoundaryKind = Neumann | Dirichlet

  /** the distance from the domain's edge within which a position counts as on that side */
  const BoundaryTolerance: real := 0.0001

  /** the gravitational acceleration used to turn a head into a pressure */
  const Gravity: real := 9.81

  /** the slots of boundaryConditions_ */
  const TopSlot: nat := 0
  const BottomSlot: nat := 1
  const LeftSlot: nat := 2
  const RightSlot: nat := 3

  // ---------------------------------------------------------------------
  // Sources and their cells

  /** the index of the cell column (or row) containing pos, on `res` cells over a length `size` */
  function CellCoordinate(pos: real, res: int, size: real): int
    requires size != 0.0
  {
    (pos * res as real / size).Floor
  }

  /** the cell index a source is given: column plus row times the number of columns */
  function CellIndex(g: Geometry, x: real, y: real): int
    requires g.size0 != 0.0 && g.size1 != 0.0
  {
    CellCoordinate(x, g.res0, g.size0) + CellCoordinate(y, g.res1, g.size1) * g.res0
  }

  /** a position inside [0, size) lies in one of the res cells */
  lemma CoordinateInRange(pos: real, res: int, size: real)
    requires res > 0 && size > 0.0 && 0.0 <= pos < size
    ensures 0 <= CellCoordinate(pos, res, size) < res
  {
    var a := pos * res as real / size;
    assert pos * res as real < size * res as real;
    assert a * size == pos * res as real;
    assert 0.0 <= a < res as real;
  }

  lemma RowMajorSplit(c: int, r: int, n: int)
    requires n > 0 && 0 <= c < n && 0 <= r
    ensures (c + r * n) / n == r && (c + r * n) % n == c
  {
    var x := c + r * n;
    var q, m := x / n, x % n;
    assert x == q * n + m && 0 <= m < n;
    assert (q - r) * n == c - m;
    if q > r {
      MulAtLeast(q - r, n);
    } else if q < r {
      MulAtLeast(r - q, n);
    }
  }

  lemma MulAtLeast(a: int, n: int)
    requires a >= 1 && n > 0
    ensures a * n >= n
  {
  }

  /**
   * A source inside the domain is given the row-major index of the cell it
   * lies in: an index of the grid from which its column and row are
   * recovered by remainder and quotient.
   */
  lemma CellIndexIsRowMajor(g: Geometry, x: real, y: real)
    requires g.Admissible() && 0.0 <= x < g.size0 && 0.0 <= y < g.size1
    ensures 0 <= CellIndex(g, x, y) < g.res0 * g.res1
    ensures CellIndex(g, x, y) % g.res0 == CellCoordinate(x, g.res0, g.size0)
    ensures CellIndex(g, x, y) / g.res0 == CellCoordinate(y, g.res1, g.size1)
  {
    var c, r := CellCoordinate(x, g.res0, g.size0), CellCoordinate(y, g.res1, g.size1);
    CoordinateInRange(x, g.res0, g.size0);
    CoordinateInRange(y, g.res1, g.size1);
    RowMajorSplit(c, r, g.res0);
    RowMajorBound(c, r, g.res0, g.res1);
  }

  lemma RowMajorBound(c: int, r: int, n: int, m: int)
    requires 0 <= c < n && 0 <= r < m
    ensures 0 <= c + r * n < n * m
  {
    assert r * n <= (m - 1) * n;
  }

  /** the sources of Source.sources: one per complete group of three entries, a trailing partial group ignored */
  function ParsedSources(values: seq<real>, g: Geometry): (r: seq<Source>)
    requires g.size0 != 0.0 && g.size1 != 0.0
    ensures |r| == |values| / 3
    ensures forall k :: 0 <= k < |r| ==>
      r[k] == Source(values[3 * k], values[3 * k + 1], values[3 * k + 2], CellIndex(g, values[3 * k], values[3 * k + 1]))
  {
    seq(|values| / 3, k requires 0 <= k < |values| / 3 =>
      Source(values[3 * k], values[3 * k + 1], values[3 * k + 2], CellIndex(g, values[3 * k], values[3 * k + 1])))
  }

  /** the flat list of (x, y, q) triples a list of sources is read from */
  function FlattenSources(sources: seq<Source>): (r: seq<real>)
    ensures |r| == 3 * |sources|
    decreases |sources|
  {
    if |sources| == 0 then []
    else FlattenSources(sources[..|sources| - 1]) + [sources[|sources| - 1].x, sources[|sources| - 1].y, sources[|sources| - 1].q]
  }

  lemma {:induction false} FlattenSourcesAt(sources: seq<Source>, k: nat)
    requires k < |sources|
    ensures FlattenSources(sources)[3 * k] == sources[k].x
    ensures FlattenSources(sources)[3 * k + 1] == sources[k].y
    ensures FlattenSources(sources)[3 * k + 2] == sources[k].q
    decreases |sources|
  {
    var n := |sources| - 1;
    if k < n {
      FlattenSourcesAt(sources[..n], k);
    }
  }

  /**
   * Reading the flat list of some sources gives them back, with their
   * cell indices recomputed: the reader loses nothing but a trailing
   * incomplete group.
   */
  lemma SourcesRoundTrip(sources: seq<Source>, g: Geometry)
    requires g.size0 != 0.0 && g.size1 != 0.0
    requires forall k :: 0 <= k < |sources| ==> sources[k].index == CellIndex(g, sources[k].x, sources[k].y)
    ensures ParsedSources(FlattenSources(sources), g) == sources
  {
    var f := FlattenSources(sources);
    var r := ParsedSources(f, g);
    assert |f| / 3 == |sources|;
    forall k | 0 <= k < |sources| ensures r[k] == sources[k] {
      FlattenSourcesAt(sources, k);
      var x, y := f[3 * k], f[3 * k + 1];
      assert x == sources[k].x && y == sources[k].y;
      assert r[k] == Source(x, y, f[3 * k + 2], CellIndex(g, x, y));
    }
  }

  /** the constructor's loop over Source.sources */
  method ReadSources(values: seq<real>, g: Geometry) returns (sources: seq<Source>)
    requires g.size0 != 0.0 && g.size1 != 0.0
    ensures sources == ParsedSources(values, g)
  {
    sources := [];
    var numberOfSources := |values| / 3;
    for sourceCount := 0 to numberOfSources
      invariant sources == ParsedSources(values[..3 * sourceCount], g)
    {
      var x, y, q := values[sourceCount * 3], values[sourceCount * 3 + 1], values[sourceCount * 3 + 2];
      sources := sources + [Source(x, y, q, CellIndex(g, x, y))];
      assert values[..3 * (sourceCount + 1)][..3 * sourceCount] == values[..3 * sourceCount];
    }
    assert ParsedSources(values[..3 * numberOfSources], g) == ParsedSources(values, g);
  }

  // ---------------------------------------------------------------------
  // Boundary segments

  /** the segments of one BoundaryConditions list: one per complete group of four entries */
  function ParsedSegments(values: seq<real>): (r: seq<BoundarySegment>)
    ensures |r| == |values| / 4
    ensures forall k :: 0 <= k < |r| ==>
      r[k] == BoundarySegment(values[4 * k], values[4 * k + 1], values[4 * k + 2] != 0.0, values[4 * k + 3])
  {
    seq(|values| / 4, k requires 0 <= k < |values| / 4 =>
      BoundarySegment(values[4 * k], values[4 * k + 1], values[4 * k + 2] != 0.0, values[4 * k + 3]))
  }

  /** the flat list of a list of segments, with 1 for a Neumann and 0 for a Dirichlet segment */
  function FlattenSegments(segments: seq<BoundarySegment>): (r: seq<real>)
    ensures |r| == 4 * |segments|
    decreases |segments|
  {
    if |segments| == 0 then []
    else
      var s := segments[|segments| - 1];
      FlattenSegments(segments[..|segments| - 1]) + [s.from, s.to, if s.neumann then 1.0 else 0.0, s.value]
  }

  lemma {:induction false} FlattenSegmentsAt(segments: seq<BoundarySegment>, k: nat)
    requires k < |segments|
    ensures FlattenSegments(segments)[4 * k] == segments[k].from
    ensures FlattenSegments(segments)[4 * k + 1] == segments[k].to
    ensures FlattenSegments(segments)[4 * k + 2] == if segments[k].neumann then 1.0 else 0.0
    ensures FlattenSegments(segments)[4 * k + 3] == segments[k].value
    decreases |segments|
  {
    var n := |segments| - 1;
    if k < n {
      FlattenSegmentsAt(segments[..n], k);
    }
  }

  /** reading the flat list of some segments gives them back */
  lemma SegmentsRoundTrip(segments: seq<BoundarySegment>)
    ensures ParsedSegments(FlattenSegments(segments)) == segments
  {
    var r := ParsedSegments(FlattenSegments(segments));
    forall k | 0 <= k < |segments| ensures r[k] == segments[k] {
      FlattenSegmentsAt(segments, k);
    }
  }

  /** one of the constructor's four loops over a BoundaryConditions list */
  method ReadSegments(values: seq<real>) returns (segments: seq<BoundarySegment>)
    ensures segments == ParsedSegments(values)
  {
    segments := [];
    var numberOfSegments := |values| / 4;
    for segmentCount := 0 to numberOfSegments
      invariant segments == ParsedSegments(values[..4 * segmentCount])
    {
      var segment := BoundarySegment(values[segmentCount * 4], values[segmentCount * 4 + 1],
                                     values[segmentCount * 4 + 2] != 0.0, values[segmentCount * 4 + 3]);
      segments := segments + [segment];
      assert values[..4 * (segmentCount + 1)][..4 * segmentCount] == values[..4 * segmentCount];
    }
    assert ParsedSegments(values[..4 * numberOfSegments]) == ParsedSegments(values);
  }

  // ---------------------------------------------------------------------
  // Looking up a boundary position

  predicate OnLeft(g: Geometry, posX: real, posY: real) { posX < BoundaryTolerance }
  predicate OnBottom(g: Geometry, posX: real, posY: real) { posY < BoundaryTolerance }
  predicate OnRight(g: Geometry, posX: real, posY: real) { posX > g.size0 - BoundaryTolerance }
  predicate OnTop(g: Geometry, posX: real, posY: real) { posY > g.size1 - BoundaryTolerance }

  /**
   * The side tests of the *AtPos functions, in their order left, bottom,
   * right, top, each overriding the ones before: the slot of the side's
   * segments and the coordinate along that side.
   */
  function BoundarySide(g: Geometry, posX: real, posY: real): (r: (nat, real))
    ensures r.0 < 4
    ensures OnTop(g, posX, posY) ==> r == (TopSlot, posX)
    ensures !OnTop(g, posX, posY) && OnRight(g, posX, posY) ==> r == (RightSlot, posY)
    ensures !OnTop(g, posX, posY) && !OnRight(g, posX, posY) && OnBottom(g, posX, posY) ==> r == (BottomSlot, posX)
    ensures !OnTop(g, posX, posY) && !OnRight(g, posX, posY) && !OnBottom(g, posX, posY) && OnLeft(g, posX, posY)
            ==> r == (LeftSlot, posY)
    ensures !OnTop(g, posX, posY) && !OnRight(g, posX, posY) && !OnBottom(g, posX, posY) && !OnLeft(g, posX, posY)
            ==> r == (TopSlot, 0.0)
  {
    var r0: (nat, real) := (0, 0.0);
    var r1 := if OnLeft(g, posX, posY) then (LeftSlot, posY) else r0;
    var r2 := if OnBottom(g, posX, posY) then (BottomSlot, posX) else r1;
    var r3 := if OnRight(g, posX, posY) then (RightSlot, posY) else r2;
    if OnTop(g, posX, posY) then (TopSlot, posX) else r3
  }

  predicate Contains(s: BoundarySegment, coordinate: real) {
    s.from < coordinate < s.to
  }

  /** the position of the first segment strictly containing the coordinate */
  function FirstSegment(segments: seq<BoundarySegment>, coordinate: real): (r: Option<nat>)
    ensures r.Some? ==> r.value < |segments| && Contains(segments[r.value], coordinate)
    ensures r.Some? ==> forall j :: 0 <= j < r.value ==> !Contains(segments[j], coordinate)
    ensures r.None? <==> forall j :: 0 <= j < |segments| ==> !Contains(segments[j], coordinate)
    decreases |segments|
  {
    if |segments| == 0 then None
    else if Contains(segments[0], coordinate) then Some(0)
    else match FirstSegment(segments[1..], coordinate)
      case None => None
      case Some(k) => Some(k + 1)
  }

  class GroundwaterProblem {
    const geometry: Geometry
    var sources: seq<Source>
    /** the segments of the top, bottom, left and right sides, in that slot order */
    var boundaryConditions: seq<seq<BoundarySegment>>

    ghost predicate Valid()
      reads this
    {
      |boundaryConditions| == 4
    }

    /** the constructor: the sources, then the left, right, bottom and top segment lists */
    constructor (g: Geometry, sourceValues: seq<real>,
                 left: seq<real>, right: seq<real>, bottom: seq<real>, top: seq<real>)
      requires g.size0 != 0.0 && g.size1 != 0.0
      ensures Valid() && geometry == g
      ensures sources == ParsedSources(sourceValues, g)
      ensures boundaryConditions[LeftSlot] == ParsedSegments(left)
      ensures boundaryConditions[RightSlot] == ParsedSegments(right)
      ensures boundaryConditions[BottomSlot] == ParsedSegments(bottom)
      ensures boundaryConditions[TopSlot] == ParsedSegments(top)
    {
      geometry := g;
      var s := ReadSources(sourceValues, g);
      sources := s;
      var l := ReadSegments(left);
      var r := ReadSegments(right);
      var b := ReadSegments(bottom);
      var t := ReadSegments(top);
      boundaryConditions := [t, b, l, r];
    }

    /** the segment that governs a boundary position, if any */
    function SegmentAt(posX: real, posY: real): (r: Option<BoundarySegment>)
      reads this
      requires Valid()
      ensures var (slot, coordinate) := BoundarySide(geometry, posX, posY);
        && (r.None? <==> forall j :: 0 <= j < |boundaryConditions[slot]| ==> !Contains(boundaryConditions[slot][j], coordinate))
        && (r.Some? ==> exists j :: 0 <= j < |boundaryConditions[slot]| && r.value == boundaryConditions[slot][j]
                          && Contains(r.value, coordinate)
                          && forall i :: 0 <= i < j ==> !Contains(boundaryConditions[slot][i], coordinate))
    {
      var (slot, coordinate) := BoundarySide(geometry, posX, posY);
      match FirstSegment(boundaryConditions[slot], coordinate)
      case None => None
      case Some(k) => Some(boundaryConditions[slot][k])
    }

    /** boundaryTypesAtPos: the governing segment's kind; Neumann where no segment governs */
    function BoundaryTypesAtPos(posX: real, posY: real): (r: BoundaryKind)
      reads this
      requires Valid()
      ensures r == Dirichlet <==> SegmentAt(posX, posY).Some? && !SegmentAt(posX, posY).value.neumann
    {
      match SegmentAt(posX, posY)
      case None => Neumann
      case Some(s) => if s.neumann then Neumann else Dirichlet
    }

    /** dirichletAtPos: the governing segment's head as a pressure; 0 where no segment governs */
    function DirichletAtPos(posX: real, posY: real, density: real): (r: real)
      reads this
      requires Valid()
      ensures SegmentAt(posX, posY).None? ==> r == 0.0
    {
      match SegmentAt(posX, posY)
      case None => 0.0
      case Some(s) => s.value * density * Gravity
    }

    /** neumannAtPos: the governing segment's flux, with the sign of an inflow; 0 where no segment governs */
    function NeumannAtPos(posX: real, posY: real, density: real): (r: real)
      reads this
      requires Valid()
      ensures SegmentAt(posX, posY).None? ==> r == 0.0
    {
      match SegmentAt(posX, posY)
      case None => 0.0
      case Some(s) => s.value * density * -1.0
    }

    /** source: the sources of the element's cell, divided by its volume and the depth */
    function SourceAt(elementIndex: int, density: real, volume: real, depth: real): real
      reads this
      requires volume != 0.0 && depth != 0.0
    {
      SourceSum(sources, elementIndex, density, volume, depth)
    }
  }

  /**
   * At a position governed by a segment the Dirichlet value is that
   * segment's value times density and gravity and the Neumann value is
   * minus its value times density, whichever kind the segment is; where no
   * segment governs, the position is a no-flow Neumann boundary.
   */
  lemma BoundaryValuesAgree(p: GroundwaterProblem, posX: real, posY: real, density: real)
    requires p.Valid()
    ensures p.SegmentAt(posX, posY).None? ==>
      p.BoundaryTypesAtPos(posX, posY) == Neumann && p.NeumannAtPos(posX, posY, density) == 0.0
      && p.DirichletAtPos(posX, posY, density) == 0.0
    ensures p.SegmentAt(posX, posY).Some? ==>
      p.DirichletAtPos(posX, posY, density) == p.SegmentAt(posX, posY).value.value * density * Gravity
    ensures p.SegmentAt(posX, posY).Some? ==>
      p.NeumannAtPos(posX, posY, density) == -(p.SegmentAt(posX, posY).value.value * density)
  {
  }

  /** what one source adds to the source term of an element */
  function Contribution(s: Source, elementIndex: int, density: real, volume: real, depth: real): real
    requires volume != 0.0 && depth != 0.0
  {
    if s.index == elementIndex then s.q * density / volume / depth else 0.0
  }

  /** the sum the loop of source() accumulates over the sources of one cell */
  function SourceSum(sources: seq<Source>, elementIndex: int, density: real, volume: real, depth: real): (r: real)
    requires volume != 0.0 && depth != 0.0
    ensures (forall k :: 0 <= k < |sources| ==> sources[k].index != elementIndex) ==> r == 0.0
    decreases |sources|
  {
    if |sources| == 0 then 0.0
    else
      var k := |sources| - 1;
      SourceSum(sources[..k], elementIndex, density, volume, depth) + Contribution(sources[k], elementIndex, density, volume, depth)
  }

  /** the sources of two lists add up */
  lemma {:induction false} SourceSumAppend(a: seq<Source>, b: seq<Source>, elementIndex: int, density: real, volume: real, depth: real)
    requires volume != 0.0 && depth != 0.0
    ensures SourceSum(a + b, elementIndex, density, volume, depth)
         == SourceSum(a, elementIndex, density, volume, depth) + SourceSum(b, elementIndex, density, volume, depth)
    decreases |b|
  {
    if |b| == 0 {
      assert a + b == a;
    } else {
      var k := |b| - 1;
      assert (a + b)[..|a| + k] == a + b[..k];
      assert (a + b)[|a| + k] == b[k];
      SourceSumAppend(a, b[..k], elementIndex, density, volume, depth);
    }
  }

  /** no source of a list lies in the cell */
  predicate NoneIn(sources: seq<Source>, elementIndex: int) {
    forall k :: 0 <= k < |sources| ==> sources[k].index != elementIndex
  }

  /** the sum over the sources of a cell that holds exactly one of them is that one's contribution */
  lemma {:induction false} LoneSourceSum(sources: seq<Source>, i: nat, density: real, volume: real, depth: real)
    requires volume != 0.0 && depth != 0.0 && i < |sources|
    requires forall k :: 0 <= k < |sources| && k != i ==> sources[k].index != sources[i].index
    ensures SourceSum(sources, sources[i].index, density, volume, depth) == Contribution(sources[i], sources[i].index, density, volume, depth)
  {
    var e := sources[i].index;
    var before, after := sources[..i], sources[i + 1..];
    assert sources == before + [sources[i]] + after;
    SourceSumAppend(before + [sources[i]], after, e, density, volume, depth);
    SourceSumAppend(before, [sources[i]], e, density, volume, depth);
    assert [sources[i]][..0] == [];
    assert NoneIn(before, e) by {
      forall k | 0 <= k < |before| ensures before[k].index != e {
        assert before[k] == sources[k];
      }
    }
    assert NoneIn(after, e) by {
      forall k | 0 <= k < |after| ensures after[k].index != e {
        assert after[k] == sources[i + 1 + k];
      }
    }
  }

  /** a cell with exactly one source receives that source's rate, times the density, per unit volume and depth */
  lemma SingleSourceOfCell(sources: seq<Source>, i: nat, density: real, volume: real, depth: real)
    requires volume != 0.0 && depth != 0.0 && i < |sources|
    requires forall k :: 0 <= k < |sources| && k != i ==> sources[k].index != sources[i].index
    ensures SourceSum(sources, sources[i].index, density, volume, depth) == sources[i].q * density / volume / depth
  {
    LoneSourceSum(sources, i, density, volume, depth);
  }
}
