/**
 * The rate vector of the Richards model: one continuity equation for the
 * liquid component. Setting molar or volumetric rates writes only the
 * continuity entry and leaves every other entry as it was.
 */
module RichardsRateVector {
  import opened RateVectorSpec

  /** setMolarRate's result: the continuity entry becomes the liquid's mass rate, the rest is kept */
  function RichardsMolarUpdate(current: seq<real>, value: seq<real>, contiEqIdx: nat, liquidMolarMass: real): (r: seq<real>)
    requires contiEqIdx < |current| && |value| == |current|
    ensures |r| == |current|
    ensures r[contiEqIdx] == value[contiEqIdx] * liquidMolarMass
    ensures forall i :: 0 <= i < |r| && i != contiEqIdx ==> r[i] == current[i]
  {
    current[contiEqIdx := value[contiEqIdx] * liquidMolarMass]
  }

  /**
   * On a vector that already holds the molar rates, the Richards
   * conversion agrees with the black-oil one for a single component at
   * the continuity equation whose molar mass is that of the liquid.
   */
  lemma RichardsMolarIsSingleComponentConversion(value: seq<real>, contiEqIdx: nat, liquidMolarMass: real)
    requires contiEqIdx < |value|
    ensures RichardsMolarUpdate(value, value, contiEqIdx, liquidMolarMass)
         == MassFromMolar(Layout(contiEqIdx, 1), c => liquidMolarMass, value)
  {
    var r := RichardsMolarUpdate(value, value, contiEqIdx, liquidMolarMass);
    var b := MassFromMolar(Layout(contiEqIdx, 1), c => liquidMolarMass, value);
    forall i | 0 <= i < |value| ensures r[i] == b[i] {
      if i == contiEqIdx {
        assert Layout(contiEqIdx, 1).IsComponent(i);
      }
    }
  }

  /** setMolarRate reads nothing of its argument but the continuity entry, and setting it twice changes nothing more */
  lemma RichardsMolarReadsOnlyContinuityEntry(current: seq<real>, value: seq<real>, value': seq<real>,
                                               contiEqIdx: nat, liquidMolarMass: real)
    requires contiEqIdx < |current| && |value| == |current| && |value'| == |current|
    ensures RichardsMolarUpdate(current, value, contiEqIdx, liquidMolarMass)
         == RichardsMolarUpdate(current, value', contiEqIdx, liquidMolarMass)
        <==> value[contiEqIdx] * liquidMolarMass == value'[contiEqIdx] * liquidMolarMass
    ensures var once := RichardsMolarUpdate(current, value, contiEqIdx, liquidMolarMass);
      RichardsMolarUpdate(once, value, contiEqIdx, liquidMolarMass) == once
  {
    var a := RichardsMolarUpdate(current, value, contiEqIdx, liquidMolarMass);
    var b := RichardsMolarUpdate(current, value', contiEqIdx, liquidMolarMass);
    if a == b {
      assert a[contiEqIdx] == b[contiEqIdx];
    }
    if value[contiEqIdx] * liquidMolarMass == value'[contiEqIdx] * liquidMolarMass {
      assert forall i :: 0 <= i < |a| ==> a[i] == b[i];
    }
    var once := a;
    var twice := RichardsMolarUpdate(once, value, contiEqIdx, liquidMolarMass);
    assert forall i :: 0 <= i < |a| ==> twice[i] == once[i];
  }

  class RichardsRateVector {
    /** Indices::contiEqIdx */
    const contiEqIdx: nat
    /** the liquid component's index */
    const liquidCompIdx: nat
    const molarMass: nat -> real
    const data: array<real>

    predicate Valid() {
      contiEqIdx < data.Length
    }

    constructor (numEq: nat, contiEqIdx: nat, liquidCompIdx: nat, molarMass: nat -> real)
      requires contiEqIdx < numEq
      ensures Valid() && this.contiEqIdx == contiEqIdx && this.liquidCompIdx == liquidCompIdx
      ensures this.molarMass == molarMass && data.Length == numEq && fresh(data)
    {
      this.contiEqIdx := contiEqIdx;
      this.liquidCompIdx := liquidCompIdx;
      this.molarMass := molarMass;
      data := new real[numEq];
    }

    /** setMassRate: the vector becomes a copy of the mass rates */
    method SetMassRate(value: seq<real>)
      requires |value| == data.Length
      modifies data
      ensures data[..] == value
    {
      for i := 0 to data.Length
        invariant forall j :: 0 <= j < i ==> data[j] == value[j]
      {
        data[i] := value[i];
      }
    }

    /** setMolarRate: only the continuity entry is written */
    method SetMolarRate(value: seq<real>)
      requires Valid() && |value| == data.Length
      modifies data
      ensures data[..] == RichardsMolarUpdate(old(data[..]), value, contiEqIdx, molarMass(liquidCompIdx))
    {
      data[contiEqIdx] := value[contiEqIdx] * molarMass(liquidCompIdx);
    }

    /**
     * setVolumetricRate, the mass part: the continuity entry becomes the
     * liquid's mass rate in `volume` of phase phaseIdx; the other entries
     * are left alone.
     */
    method SetVolumetricRate(fs: FluidState, phaseIdx: nat, volume: real)
      requires Valid()
      modifies data
      ensures data[contiEqIdx] == fs.density(phaseIdx) * fs.massFraction(phaseIdx, liquidCompIdx) * volume
      ensures forall i :: 0 <= i < data.Length && i != contiEqIdx ==> data[i] == old(data[i])
    {
      data[contiEqIdx] := fs.density(phaseIdx) * fs.massFraction(phaseIdx, liquidCompIdx) * volume;
    }

    /** operator= from a scalar: every entry becomes that value */
    method AssignScalar(value: real)
      modifies data
      ensures forall i :: 0 <= i < data.Length ==> data[i] == value
    {
      for i := 0 to data.Length
        invariant forall j :: 0 <= j < i ==> data[j] == value
      {
        data[i] := value;
      }
    }

    /** operator= from another rate vector of the same size: entry by entry copy */
    method Assign(other: RichardsRateVector)
      requires other.data.Length == data.Length
      modifies data
      ensures data[..] == old(other.data[..])
    {
      for i := 0 to data.Length
        invariant forall j :: 0 <= j < i ==> data[j] == old(other.data[j])
        invariant forall j :: i <= j < data.Length ==> other.data[j] == old(other.data[j])
      {
        data[i] := other.data[i];
      }
    }
  }
}
