/**
 * The rate vector of the black-oil model: it stores mass rates, so mass
 * rates are taken as they are and molar rates are multiplied by the
 * components' molar masses.
 */
module BlackOilRateVector {
  import opened RateVectorSpec

  class BlackOilRateVector {
    const layout: Layout
    /** FluidSystem::molarMass */
    const molarMass: nat -> real
    /** one entry per equation */
    const data: array<real>

    predicate Valid() {
      layout.Fits(data.Length)
    }

    constructor (numEq: nat, layout: Layout, molarMass: nat -> real)
      requires layout.Fits(numEq)
      ensures Valid() && this.layout == layout && this.molarMass == molarMass
      ensures data.Length == numEq && fresh(data)
    {
      this.layout := layout;
      this.molarMass := molarMass;
      data := new real[numEq];
    }

    /** setMassRate: the vector becomes a copy of the mass rates */
    method SetMassRate(value: seq<real>)
      requires |value| == data.Length
      modifies data
      ensures data[..] == value
    {
      for i := 0 to data.Length
        invariant forall j :: 0 <= j < i ==> data[j] == value[j]
      {
        data[i] := value[i];
      }
    }

    /** setMolarRate: copy the molar rates, then turn each component entry into a mass rate */
    method SetMolarRate(value: seq<real>)
      requires Valid() && |value| == data.Length
      modifies data
      ensures data[..] == MassFromMolar(layout, molarMass, value)
    {
      SetMassRate(value);
      for compIdx := 0 to layout.numComponents
        invariant forall i :: 0 <= i < data.Length ==>
          data[i] == if layout.conti0EqIdx <= i < layout.conti0EqIdx + compIdx
                     then value[i] * molarMass(i - layout.conti0EqIdx) else value[i]
      {
        data[layout.conti0EqIdx + compIdx] := data[layout.conti0EqIdx + compIdx] * molarMass(compIdx);
      }
      ghost var r := MassFromMolar(layout, molarMass, value);
      assert forall i :: 0 <= i < data.Length ==> data[i] == r[i];
    }

    /**
     * setVolumetricRate: each component entry becomes the mass rate of
     * that component in `volume` of phase phaseIdx; the other entries are
     * left alone.
     */
    method SetVolumetricRate(fs: FluidState, phaseIdx: nat, volume: real)
      requires Valid()
      modifies data
      ensures HoldsVolumetricMassRates(layout, data[..], fs, phaseIdx, volume)
      ensures forall i :: 0 <= i < data.Length && !layout.IsComponent(i) ==> data[i] == old(data[i])
    {
      for compIdx := 0 to layout.numComponents
        invariant forall c: nat :: c < compIdx ==>
          data[layout.conti0EqIdx + c] == fs.density(phaseIdx) * fs.massFraction(phaseIdx, c) * volume
        invariant forall i :: 0 <= i < data.Length && !(layout.conti0EqIdx <= i < layout.conti0EqIdx + compIdx) ==>
          data[i] == old(data[i])
      {
        data[layout.conti0EqIdx + compIdx] := fs.density(phaseIdx) * fs.massFraction(phaseIdx, compIdx) * volume;
      }
    }

    /** operator= from a scalar: every entry becomes that value */
    method AssignScalar(value: real)
      modifies data
      ensures forall i :: 0 <= i < data.Length ==> data[i] == value
    {
      for i := 0 to data.Length
        invariant forall j :: 0 <= j < i ==> data[j] == value
      {
        data[i] := value;
      }
    }

    /** operator= from another rate vector of the same size: entry by entry copy */
    method Assign(other: BlackOilRateVector)
      requires other.data.Length == data.Length
      modifies data
      ensures data[..] == old(other.data[..])
    {
      for i := 0 to data.Length
        invariant forall j :: 0 <= j < i ==> data[j] == old(other.data[j])
        invariant forall j :: i <= j < data.Length ==> other.data[j] == old(other.data[j])
      {
        data[i] := other.data[i];
      }
    }
  }
}
