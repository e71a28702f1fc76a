/**
 * What a rate vector holds after it has been set from mass, molar or
 * volumetric rates: one entry per conservation equation, of which a
 * contiguous block (starting at the first continuity equation) belongs to
 * the chemical components. Evaluations of automatic differentiation are
 * reduced to real numbers and the fluid system's molar masses to an
 * abstract function of the component index.
 */
module RateVectorSpec {

  /** where the component entries of a rate vector start and how many there are */
  datatype Layout = Layout(conti0EqIdx: nat, numComponents: nat)
  {
    predicate IsComponent(i: int) {
      conti0EqIdx <= i < conti0EqIdx + numComponents
    }

    /** the component entries lie inside a vector of numEq entries */
    predicate Fits(numEq: nat) {
      conti0EqIdx + numComponents <= numEq
    }
  }

  predicate MolarMassesNonZero(l: Layout, molarMass: nat -> real) {
    forall c: nat :: c < l.numComponents ==> molarMass(c) != 0.0
  }

  /** the local fluid state: densities, mass and mole fractions per phase and component */
  datatype FluidState = FluidState(
    density: nat -> real,
    componentDensity: (nat, nat) -> real,
    massFraction: (nat, nat) -> real,
    moleFraction: (nat, nat) -> real)

  /** molar rates converted to mass rates: every component entry times its molar mass */
  function MassFromMolar(l: Layout, molarMass: nat -> real, v: seq<real>): (r: seq<real>)
    ensures |r| == |v|
    ensures forall i :: 0 <= i < |v| && !l.IsComponent(i) ==> r[i] == v[i]
    ensures forall i :: 0 <= i < |v| && l.IsComponent(i) ==> r[i] == v[i] * molarMass(i - l.conti0EqIdx)
  {
    seq(|v|, i requires 0 <= i < |v| => if l.IsComponent(i) then v[i] * molarMass(i - l.conti0EqIdx) else v[i])
  }

  /** mass rates converted to molar rates: every component entry divided by its molar mass */
  function MolarFromMass(l: Layout, molarMass: nat -> real, v: seq<real>): (r: seq<real>)
    requires MolarMassesNonZero(l, molarMass)
    ensures |r| == |v|
    ensures forall i :: 0 <= i < |v| && !l.IsComponent(i) ==> r[i] == v[i]
    ensures forall i :: 0 <= i < |v| && l.IsComponent(i) ==> r[i] == v[i] / molarMass(i - l.conti0EqIdx)
  {
    seq(|v|, i requires 0 <= i < |v| => if l.IsComponent(i) then v[i] / molarMass(i - l.conti0EqIdx) else v[i])
  }

  /** converting mass rates to molar rates and back gives the mass rates again */
  lemma MassMolarRoundTrip(l: Layout, molarMass: nat -> real, v: seq<real>)
    requires MolarMassesNonZero(l, molarMass)
    ensures MassFromMolar(l, molarMass, MolarFromMass(l, molarMass, v)) == v
  {
    var r := MassFromMolar(l, molarMass, MolarFromMass(l, molarMass, v));
    forall i | 0 <= i < |v| ensures r[i] == v[i] {
      if l.IsComponent(i) {
        var m := molarMass(i - l.conti0EqIdx);
        assert r[i] == (v[i] / m) * m;
      }
    }
  }

  /** converting molar rates to mass rates and back gives the molar rates again */
  lemma MolarMassRoundTrip(l: Layout, molarMass: nat -> real, v: seq<real>)
    requires MolarMassesNonZero(l, molarMass)
    ensures MolarFromMass(l, molarMass, MassFromMolar(l, molarMass, v)) == v
  {
    var r := MolarFromMass(l, molarMass, MassFromMolar(l, molarMass, v));
    forall i | 0 <= i < |v| ensures r[i] == v[i] {
      if l.IsComponent(i) {
        var m := molarMass(i - l.conti0EqIdx);
        assert r[i] == (v[i] * m) / m;
      }
    }
  }

  /** the sum of the first n component entries of v */
  function ComponentTotal(l: Layout, v: seq<real>, n: nat): real
    requires n <= l.numComponents && l.Fits(|v|)
  {
    if n == 0 then 0.0 else ComponentTotal(l, v, n - 1) + v[l.conti0EqIdx + n - 1]
  }

  /** the sum of the first n mass fractions of a phase */
  function FractionTotal(fs: FluidState, phaseIdx: nat, n: nat): real {
    if n == 0 then 0.0 else FractionTotal(fs, phaseIdx, n - 1) + fs.massFraction(phaseIdx, n - 1)
  }

  /** the component entries of v are the component mass rates of `volume` of phase phaseIdx */
  predicate HoldsVolumetricMassRates(l: Layout, v: seq<real>, fs: FluidState, phaseIdx: nat, volume: real) {
    && l.Fits(|v|)
    && forall c: nat :: c < l.numComponents ==>
         v[l.conti0EqIdx + c] == fs.density(phaseIdx) * fs.massFraction(phaseIdx, c) * volume
  }

  /**
   * The component mass rates of a volume of one phase add up to the
   * density of the phase times the volume times the sum of its mass
   * fractions, so to the total mass of that volume when the fractions sum
   * to one.
   */
  lemma {:induction false} VolumetricRatesAddUp(l: Layout, v: seq<real>, fs: FluidState, phaseIdx: nat, volume: real, n: nat)
    requires HoldsVolumetricMassRates(l, v, fs, phaseIdx, volume) && n <= l.numComponents
    ensures ComponentTotal(l, v, n) == fs.density(phaseIdx) * volume * FractionTotal(fs, phaseIdx, n)
  {
    if n > 0 {
      VolumetricRatesAddUp(l, v, fs, phaseIdx, volume, n - 1);
      var d, f, x := fs.density(phaseIdx), fs.massFraction(phaseIdx, n - 1), FractionTotal(fs, phaseIdx, n - 1);
      assert v[l.conti0EqIdx + n - 1] == d * f * volume;
      assert d * volume * (x + f) == d * volume * x + d * f * volume;
    }
  }
}
