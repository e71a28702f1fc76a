/**
 * The flash and black-oil rate vectors convert in opposite directions:
 * mass rates stored as molar rates by a flash vector, handed to a
 * black-oil vector as molar rates, come back as the original mass rates.
 */
module RateConversion {
  import opened RateVectorSpec
  import opened FlashRateVector
  import opened BlackOilRateVector

  method MassThroughMolar(flash: FlashRateVector, blackOil: BlackOilRateVector, massRate: seq<real>)
    requires flash.Valid() && blackOil.Valid()
    requires flash.layout == blackOil.layout && flash.molarMass == blackOil.molarMass
    requires flash.data != blackOil.data
    requires |massRate| == flash.data.Length == blackOil.data.Length
    modifies flash.data, blackOil.data
    ensures flash.data[..] == MolarFromMass(flash.layout, flash.molarMass, massRate)
    ensures blackOil.data[..] == massRate
  {
    flash.SetMassRate(massRate);
    blackOil.SetMolarRate(flash.data[..]);
    MassMolarRoundTrip(flash.layout, flash.molarMass, massRate);
  }
}
