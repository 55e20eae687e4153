/**
 * The fuel catalogue of the dashboard: the fossil baseline Jet-A1 and the four
 * Sustainable Aviation Fuel (SAF) production pathways, each with its CO2e
 * coefficient (kg CO2e per unit of fuel) and its unit price.
 *
 * In data.py these constants are repeated as local variables inside `hefa`,
 * `gas`, `alc` and `syn`, and once more as the `saf_types` dictionary of
 * `saf_ratio_over_time_plot`; here they are named once.
 */
module Pathways {

  /** A fuel with its CO2e coefficient and its price per unit. */
  datatype Pathway = Pathway(name: string, intensity: real, price: real)

  /** CO2e coefficient of fossil jet fuel (`JA1` in data.py). */
  const JetA1Intensity: real := 3.84

  /** Price per unit of fossil jet fuel (`PRICE_JA1` in data.py). */
  const JetA1Price: real := 1.3

  const HefaPathway: Pathway := Pathway("HEFA", 1.3, 1.3)
  const GasToLiquidPathway: Pathway := Pathway("Gas-to-Liquid", -0.51, 3.2)
  const AlcoholToJetPathway: Pathway := Pathway("Alcohol-to-Jet", -0.86, 3.2)
  const SyntheticPathway: Pathway := Pathway("Synthetic", 1.14, 3.2)

  /** The four SAF pathways in the order every sweep visits them. */
  const SafTypes: seq<Pathway> :=
    [HefaPathway, GasToLiquidPathway, AlcoholToJetPathway, SyntheticPathway]

  /** The `saf_types` dictionary of the trajectory sweep, name to CO2e coefficient, in insertion order. */
  const SafTypeCoefficients: seq<(string, real)> :=
    [("HEFA", 1.3), ("Gas-to-Liquid", -0.51), ("Alcohol-to-Jet", -0.86), ("Synthetic", 1.14)]

  /** The dictionary of the trajectory sweep lists the same pathways, in the same order and with the same coefficients, as the mixer functions. */
  lemma CoefficientsMatchCatalogue()
    ensures |SafTypeCoefficients| == |SafTypes| == 4
    ensures forall i :: 0 <= i < 4 ==>
      SafTypeCoefficients[i].0 == SafTypes[i].name && SafTypeCoefficients[i].1 == SafTypes[i].intensity
  {
  }

  /** Every SAF pathway emits less per unit of fuel than Jet-A1, and HEFA is the only one priced like Jet-A1. */
  lemma SafCleanerThanFossil()
    ensures forall i :: 0 <= i < |SafTypes| ==> SafTypes[i].intensity < JetA1Intensity
    ensures forall i :: 0 <= i < |SafTypes| ==> (SafTypes[i].price == JetA1Price <==> i == 0)
  {
  }
}
