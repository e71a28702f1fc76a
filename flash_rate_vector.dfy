/**
 * The rate vector of the flash model: it stores molar rates, so molar
 * rates are taken as they are and mass rates are divided by the
 * components' molar masses.
 */
module FlashRateVector {
  import opened RateVectorSpec

  class FlashRateVector {
    const layout: Layout
    /** FluidSystem::molarMass, positive for every component */
    const molarMass: nat -> real
    const data: array<real>

    predicate Valid() {
      && layout.Fits(data.Length)
      && forall c: nat :: c < layout.numComponents ==> molarMass(c) > 0.0
    }

    constructor (numEq: nat, layout: Layout, molarMass: nat -> real)
      requires layout.Fits(numEq) && forall c: nat :: c < layout.numComponents ==> molarMass(c) > 0.0
      ensures Valid() && this.layout == layout && this.molarMass == molarMass
      ensures data.Length == numEq && fresh(data)
    {
      this.layout := layout;
      this.molarMass := molarMass;
      data := new real[numEq];
    }

    /** setMolarRate: the vector becomes a copy of the molar rates */
    method SetMolarRate(value: seq<real>)
      requires |value| == data.Length
      modifies data
      ensures data[..] == value
    {
      for i := 0 to data.Length
        invariant forall j :: 0 <= j < i ==> data[j] == value[j]
      {
        data[i] := value[i];
      }
    }

    /**
     * setMassRate: divide the component entries of a copy of the mass
     * rates by their molar masses and set the molar rates from the copy;
     * the caller's vector is a value and stays as it was.
     */
    method SetMassRate(value: seq<real>)
      requires Valid() && |value| == data.Length
      modifies data
      ensures MolarMassesNonZero(layout, molarMass)
      ensures data[..] == MolarFromMass(layout, molarMass, value)
    {
      var molarRate := value;
      for compIdx := 0 to layout.numComponents
        invariant |molarRate| == |value|
        invariant forall i :: 0 <= i < |value| ==>
          molarRate[i] == if layout.conti0EqIdx <= i < layout.conti0EqIdx + compIdx
                          then value[i] / molarMass(i - layout.conti0EqIdx) else value[i]
      {
        var i := layout.conti0EqIdx + compIdx;
        molarRate := molarRate[i := molarRate[i] / molarMass(compIdx)];
      }
      ghost var r := MolarFromMass(layout, molarMass, value);
      assert forall i :: 0 <= i < |value| ==> molarRate[i] == r[i];
      SetMolarRate(molarRate);
    }

    /**
     * setVolumetricRate, the mass part: each component entry becomes the
     * component's density in the phase times its mole fraction times the
     * volume; the other entries are left alone.
     */
    method SetVolumetricRate(fs: FluidState, phaseIdx: nat, volume: real)
      requires Valid()
      modifies data
      ensures forall c: nat :: c < layout.numComponents ==>
        data[layout.conti0EqIdx + c] == fs.componentDensity(phaseIdx, c) * fs.moleFraction(phaseIdx, c) * volume
      ensures forall i :: 0 <= i < data.Length && !layout.IsComponent(i) ==> data[i] == old(data[i])
    {
      for compIdx := 0 to layout.numComponents
        invariant forall c: nat :: c < compIdx ==>
          data[layout.conti0EqIdx + c] == fs.componentDensity(phaseIdx, c) * fs.moleFraction(phaseIdx, c) * volume
        invariant forall i :: 0 <= i < data.Length && !(layout.conti0EqIdx <= i < layout.conti0EqIdx + compIdx) ==>
          data[i] == old(data[i])
      {
        data[layout.conti0EqIdx + compIdx] := fs.componentDensity(phaseIdx, compIdx) * fs.moleFraction(phaseIdx, compIdx) * volume;
      }
    }

    /** operator= from a scalar: every entry becomes that value */
    method AssignScalar(value: real)
      modifies data
      ensures forall i :: 0 <= i < data.Length ==> data[i] == value
    {
      for i := 0 to data.Length
        invariant forall j :: 0 <= j < i ==> data[j] == value
      {
        data[i] := value;
      }
    }

    /** operator= from another rate vector of the same size: entry by entry copy */
    method Assign(other: FlashRateVector)
      requires other.data.Length == data.Length
      modifies data
      ensures data[..] == old(other.data[..])
    {
      for i := 0 to data.Length
        invariant forall j :: 0 <= j < i ==> data[j] == old(other.data[j])
        invariant forall j :: i <= j < data.Length ==> other.data[j] == old(other.data[j])
      {
        data[i] := other.data[i];
      }
    }
  }
}
