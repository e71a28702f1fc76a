/**
 * The stencil of the element-centred finite-volume discretisation: the
 * centre element, one degree of freedom (element and sub-control volume)
 * per neighbour across an intersection, one interior face per neighbour
 * and one boundary face per intersection without a neighbour. Geometry
 * (centres, volumes, normals, areas) is not modelled; an element is an
 * opaque identifier and the element mapper an abstract index function.
 */
module EcfvStencil {

  type Element = int

  /** an intersection of the centre element, seen only through whether it has a neighbour */
  datatype Intersection = Neighbor(outside: Element) | Boundary

  /** the exterior index stored for a boundary face: -10000 converted to a 32-bit unsigned */
  const BoundaryExteriorIdx: nat := 0x1_0000_0000 - 10000

  datatype SubControlVolume = SubControlVolume(element: Element)

  datatype SubControlVolumeFace = SubControlVolumeFace(exteriorIdx: nat)
  {
    /** the degree of freedom inside a face is always the centre element */
    function InteriorIndex(): nat { 0 }
    function ExteriorIndex(): nat { exteriorIdx }
  }

  /** the elements across the intersections that have a neighbour, in intersection order */
  function Neighbors(isects: seq<Intersection>): (r: seq<Element>)
    ensures |r| <= |isects|
    decreases |isects|
  {
    if |isects| == 0 then []
    else
      var k := |isects| - 1;
      match isects[k]
      case Neighbor(e) => Neighbors(isects[..k]) + [e]
      case Boundary => Neighbors(isects[..k])
  }

  /** the number of intersections without a neighbour */
  function NumBoundary(isects: seq<Intersection>): nat
    decreases |isects|
  {
    if |isects| == 0 then 0
    else
      var k := |isects| - 1;
      NumBoundary(isects[..k]) + (if isects[k].Boundary? then 1 else 0)
  }

  /** every intersection gives either an interior or a boundary face */
  lemma {:induction false} FacesCoverIntersections(isects: seq<Intersection>)
    ensures |Neighbors(isects)| + NumBoundary(isects) == |isects|
    decreases |isects|
  {
    if |isects| > 0 {
      FacesCoverIntersections(isects[..|isects| - 1]);
    }
  }

  /** an element is a neighbour of the stencil exactly when some intersection leads to it */
  lemma {:induction false} NeighborsAreOutsides(isects: seq<Intersection>, e: Element)
    ensures e in Neighbors(isects) <==> Neighbor(e) in isects
    decreases |isects|
  {
    if |isects| > 0 {
      var k := |isects| - 1;
      NeighborsAreOutsides(isects[..k], e);
      assert isects == isects[..k] + [isects[k]];
    }
  }

  class Stencil {
    /** the element mapper: the global index of an element */
    const mapper: Element -> nat
    var elements: seq<Element>
    var subControlVolumes: seq<SubControlVolume>
    var interiorFaces: seq<SubControlVolumeFace>
    var boundaryFaces: seq<SubControlVolumeFace>

    /** degree of freedom i is element i and sub-control volume i */
    ghost predicate Valid()
      reads this
    {
      && |elements| == |subControlVolumes|
      && (forall i :: 0 <= i < |elements| ==> subControlVolumes[i].element == elements[i])
    }

    /** the state that updateTopology leaves behind for `center` and its intersections */
    ghost predicate Built(center: Element, isects: seq<Intersection>)
      reads this
    {
      && elements == [center] + Neighbors(isects)
      && Valid()
      && interiorFaces == seq(|Neighbors(isects)|, (i: nat) => SubControlVolumeFace(i + 1))
      && boundaryFaces == seq(NumBoundary(isects), i => SubControlVolumeFace(BoundaryExteriorIdx))
    }

    constructor (mapper: Element -> nat)
      ensures this.mapper == mapper && Valid()
      ensures elements == [] && interiorFaces == [] && boundaryFaces == []
    {
      this.mapper := mapper;
      elements, subControlVolumes := [], [];
      interiorFaces, boundaryFaces := [], [];
    }

    /**
     * updateTopology: discard the previous contents, add the centre
     * element, then one element, sub-control volume and interior face per
     * neighbour and one boundary face per other intersection.
     */
    method UpdateTopology(center: Element, isects: seq<Intersection>)
      modifies this
      ensures Built(center, isects)
    {
      subControlVolumes := [SubControlVolume(center)];
      elements := [center];
      interiorFaces := [];
      boundaryFaces := [];
      var i := 0;
      while i < |isects|
        invariant 0 <= i <= |isects|
        invariant Built(center, isects[..i])
      {
        assert isects[..i + 1][..i] == isects[..i];
        match isects[i] {
          case Neighbor(outside) =>
            elements := elements + [outside];
            subControlVolumes := subControlVolumes + [SubControlVolume(outside)];
            interiorFaces := interiorFaces + [SubControlVolumeFace(|subControlVolumes| - 1)];
          case Boundary =>
            boundaryFaces := boundaryFaces + [SubControlVolumeFace(BoundaryExteriorIdx)];
        }
        i := i + 1;
      }
      assert isects[..i] == isects;
    }

    /** updatePrimaryTopology: only the centre element remains; the face lists are kept */
    method UpdatePrimaryTopology(center: Element)
      modifies this
      ensures elements == [center] && subControlVolumes == [SubControlVolume(center)]
      ensures interiorFaces == old(interiorFaces) && boundaryFaces == old(boundaryFaces)
      ensures Valid() && NumDof() == NumPrimaryDof()
    {
      subControlVolumes := [SubControlVolume(center)];
      elements := [center];
    }

    /** update: the same as updateTopology */
    method Update(center: Element, isects: seq<Intersection>)
      modifies this
      ensures Built(center, isects)
    {
      UpdateTopology(center, isects);
    }

    function NumDof(): nat
      reads this
    {
      |subControlVolumes|
    }

    /** only the centre is a primary degree of freedom */
    function NumPrimaryDof(): nat { 1 }

    function NumInteriorFaces(): nat
      reads this
    {
      |interiorFaces|
    }

    function NumBoundaryFaces(): nat
      reads this
    {
      |boundaryFaces|
    }

    /** element(dofIdx): defined only for an existing degree of freedom */
    function ElementAt(dofIdx: nat): Element
      reads this
      requires Valid() && dofIdx < NumDof()
    {
      elements[dofIdx]
    }

    /** globalSpaceIndex(dofIdx): the mapper's index of that degree of freedom's element */
    function GlobalSpaceIndex(dofIdx: nat): nat
      reads this
      requires Valid() && dofIdx < NumDof()
    {
      mapper(ElementAt(dofIdx))
    }
  }

  /**
   * After updateTopology there is one degree of freedom more than interior
   * faces, and every intersection gave exactly one face.
   */
  lemma BuiltCounts(st: Stencil, center: Element, isects: seq<Intersection>)
    requires st.Built(center, isects)
    ensures st.NumDof() == 1 + st.NumInteriorFaces()
    ensures st.NumInteriorFaces() + st.NumBoundaryFaces() == |isects|
  {
    FacesCoverIntersections(isects);
  }

  /**
   * After updateTopology degree of freedom 0 is the centre element, and
   * interior face i joins the centre (its interior index) to the i-th
   * neighbour (its exterior index, i + 1); every index is in range.
   */
  lemma BuiltFacesJoinCenterAndNeighbor(st: Stencil, center: Element, isects: seq<Intersection>, i: nat)
    requires st.Built(center, isects) && i < st.NumInteriorFaces()
    ensures st.ElementAt(0) == center && st.GlobalSpaceIndex(0) == st.mapper(center)
    ensures st.interiorFaces[i].ExteriorIndex() == i + 1 < st.NumDof()
    ensures st.ElementAt(st.interiorFaces[i].InteriorIndex()) == center
    ensures st.ElementAt(st.interiorFaces[i].ExteriorIndex()) == Neighbors(isects)[i]
  {
  }

  /** a boundary face's exterior index lies outside every stencil a 32-bit count can describe */
  lemma BoundaryFacesPointOutside(st: Stencil, center: Element, isects: seq<Intersection>, i: nat)
    requires st.Built(center, isects) && i < st.NumBoundaryFaces() && |isects| < BoundaryExteriorIdx
    ensures st.boundaryFaces[i].ExteriorIndex() >= st.NumDof()
  {
    FacesCoverIntersections(isects);
  }
}
