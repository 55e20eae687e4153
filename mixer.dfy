/**
 * The blend mixer: annual CO2e and cost of a fleet whose fuel is a fraction
 * `ratio` of one SAF pathway and the rest Jet-A1.
 *
 * data.py writes this four times, as `hefa`, `gas`, `alc` and `syn`, which
 * differ only in the SAF coefficient and price. `Blend` is the one function
 * over a pathway record; the four source functions are kept as written, and
 * each one's contract says it is `Blend` at its own pathway. The fleet's annual
 * fuel (a spreadsheet aggregate in the source) is the parameter `fuel`.
 */
module Mixer {
  import opened Pathways

  /** CO2e of `fuel` units of which the fraction `ratio` has coefficient `k` and the rest is Jet-A1. */
  function Co2(fuel: real, k: real, ratio: real): (r: real)
    ensures ratio == 0.0 || k == JetA1Intensity ==> r == fuel * JetA1Intensity
    ensures ratio == 1.0 ==> r == fuel * k
  {
    fuel * JetA1Intensity * (1.0 - ratio) + fuel * k * ratio
  }

  /** Purchase cost of the same fuel mix, before any carbon surcharge. */
  function FuelCost(fuel: real, price: real, ratio: real): real {
    fuel * (1.0 - ratio) * JetA1Price + fuel * ratio * price
  }

  /**
   * Cost of the mix with the carbon surcharge as data.py applies it: half the
   * CO2e is added unconditionally and, when the CO2e is positive, added again,
   * so the cost exceeds the single half-rate surcharge by 0.5 * CO2e exactly
   * when the mix still emits.
   */
  function Cost(fuel: real, p: Pathway, ratio: real): (r: real)
    ensures Co2(fuel, p.intensity, ratio) > 0.0 ==>
      r == FuelCost(fuel, p.price, ratio) + Co2(fuel, p.intensity, ratio)
    ensures Co2(fuel, p.intensity, ratio) <= 0.0 ==>
      r == FuelCost(fuel, p.price, ratio) + 0.5 * Co2(fuel, p.intensity, ratio)
    ensures r >= FuelCost(fuel, p.price, ratio) + Co2(fuel, p.intensity, ratio)
    ensures r >= FuelCost(fuel, p.price, ratio) + 0.5 * Co2(fuel, p.intensity, ratio)
    ensures r - (FuelCost(fuel, p.price, ratio) + 0.5 * Co2(fuel, p.intensity, ratio))
      == (if Co2(fuel, p.intensity, ratio) > 0.0 then 0.5 * Co2(fuel, p.intensity, ratio) else 0.0)
  {
    var co2 := Co2(fuel, p.intensity, ratio);
    var price := FuelCost(fuel, p.price, ratio) + 0.5 * co2;
    if co2 > 0.0 then price + 0.5 * co2 else price
  }

  /** The common shape of the four pathway functions: CO2e, or cost when the `cost` flag is set. */
  function Blend(p: Pathway, fuel: real, ratio: real, cost: bool): (r: real)
    ensures !cost ==> r == Co2(fuel, p.intensity, ratio)
    ensures cost ==>
      r - FuelCost(fuel, p.price, ratio)
        == (if Co2(fuel, p.intensity, ratio) > 0.0 then 1.0 else 0.5) * Co2(fuel, p.intensity, ratio)
  {
    if cost then Cost(fuel, p, ratio) else Co2(fuel, p.intensity, ratio)
  }

  /** `hefa`: HEFA SAF at 1.3 kg CO2e and price 1.3 per unit. */
  function Hefa(fuel: real, ratio: real, cost: bool): (r: real)
    ensures r == Blend(HefaPathway, fuel, ratio, cost)
  {
    var ja1 := 3.84; var saf := 1.3;
    var priceJa1 := 1.3; var priceSaf := 1.3;
    var co2 := fuel * ja1 * (1.0 - ratio) + fuel * saf * ratio;
    assert HefaPathway.intensity == saf && JetA1Intensity == ja1;
    assert co2 == Co2(fuel, HefaPathway.intensity, ratio);
    if cost then
      var price := fuel * (1.0 - ratio) * priceJa1 + fuel * ratio * priceSaf + 0.5 * co2;
      assert price == FuelCost(fuel, HefaPathway.price, ratio) + 0.5 * co2;
      if co2 > 0.0 then price + 0.5 * co2 else price
    else co2
  }

  /** `gas`: Gas-to-Liquid SAF at -0.51 kg CO2e and price 3.2 per unit. */
  function Gas(fuel: real, ratio: real, cost: bool): (r: real)
    ensures r == Blend(GasToLiquidPathway, fuel, ratio, cost)
  {
    var ja1 := 3.84; var saf := -0.51;
    var priceJa1 := 1.3; var priceSaf := 3.2;
    var co2 := fuel * ja1 * (1.0 - ratio) + fuel * saf * ratio;
    assert GasToLiquidPathway.intensity == saf && JetA1Intensity == ja1;
    assert co2 == Co2(fuel, GasToLiquidPathway.intensity, ratio);
    if cost then
      var price := fuel * (1.0 - ratio) * priceJa1 + fuel * ratio * priceSaf + 0.5 * co2;
      assert price == FuelCost(fuel, GasToLiquidPathway.price, ratio) + 0.5 * co2;
      if co2 > 0.0 then price + 0.5 * co2 else price
    else co2
  }

  /** `alc`: Alcohol-to-Jet SAF at -0.86 kg CO2e and price 3.2 per unit. */
  function Alc(fuel: real, ratio: real, cost: bool): (r: real)
    ensures r == Blend(AlcoholToJetPathway, fuel, ratio, cost)
  {
    var ja1 := 3.84; var saf := -0.86;
    var priceJa1 := 1.3; var priceSaf := 3.2;
    var co2 := fuel * ja1 * (1.0 - ratio) + fuel * saf * ratio;
    assert AlcoholToJetPathway.intensity == saf && JetA1Intensity == ja1;
    assert co2 == Co2(fuel, AlcoholToJetPathway.intensity, ratio);
    if cost then
      var price := fuel * (1.0 - ratio) * priceJa1 + fuel * ratio * priceSaf + 0.5 * co2;
      assert price == FuelCost(fuel, AlcoholToJetPathway.price, ratio) + 0.5 * co2;
      if co2 > 0.0 then price + 0.5 * co2 else price
    else co2
  }

  /** `syn`: Synthetic SAF at 1.14 kg CO2e and price 3.2 per unit. */
  function Syn(fuel: real, ratio: real, cost: bool): (r: real)
    ensures r == Blend(SyntheticPathway, fuel, ratio, cost)
  {
    var ja1 := 3.84; var saf := 1.14;
    var priceJa1 := 1.3; var priceSaf := 3.2;
    var co2 := fuel * ja1 * (1.0 - ratio) + fuel * saf * ratio;
    assert SyntheticPathway.intensity == saf && JetA1Intensity == ja1;
    assert co2 == Co2(fuel, SyntheticPathway.intensity, ratio);
    if cost then
      var price := fuel * (1.0 - ratio) * priceJa1 + fuel * ratio * priceSaf + 0.5 * co2;
      assert price == FuelCost(fuel, SyntheticPathway.price, ratio) + 0.5 * co2;
      if co2 > 0.0 then price + 0.5 * co2 else price
    else co2
  }

  /** The pathway function for position `i` of the sweep order: hefa, gas, alc, syn. */
  function PathwayFunction(i: int, fuel: real, ratio: real, cost: bool): (r: real)
    requires 0 <= i < 4
    ensures r == Blend(SafTypes[i], fuel, ratio, cost)
  {
    if i == 0 then Hefa(fuel, ratio, cost)
    else if i == 1 then Gas(fuel, ratio, cost)
    else if i == 2 then Alc(fuel, ratio, cost)
    else Syn(fuel, ratio, cost)
  }

  /** At ratio 0 every pathway emits what pure Jet-A1 does; at ratio 1 what pure SAF does. */
  lemma Co2Endpoints(fuel: real, k: real)
    ensures Co2(fuel, k, 0.0) == fuel * JetA1Intensity
    ensures Co2(fuel, k, 1.0) == fuel * k
  {
  }

  /** The boundary identities for the four registered pathways, whose SAF coefficients are 1.3, -0.51, -0.86 and 1.14. */
  lemma RegisteredEndpoints(fuel: real)
    ensures Hefa(fuel, 0.0, false) == Gas(fuel, 0.0, false) == Alc(fuel, 0.0, false)
         == Syn(fuel, 0.0, false) == fuel * 3.84
    ensures Hefa(fuel, 1.0, false) == fuel * 1.3
    ensures Gas(fuel, 1.0, false) == fuel * -0.51
    ensures Alc(fuel, 1.0, false) == fuel * -0.86
    ensures Syn(fuel, 1.0, false) == fuel * 1.14
  {
  }

  /** Moving the ratio from r to s changes CO2e by fuel * (k - 3.84) * (s - r). */
  lemma Co2Slope(fuel: real, k: real, r: real, s: real)
    ensures Co2(fuel, k, s) - Co2(fuel, k, r) == fuel * (k - JetA1Intensity) * (s - r)
  {
  }

  /** CO2e is affine in the ratio: it maps a weighted mean of two ratios to the same weighted mean of their CO2e. */
  lemma {:induction false} Co2Affine(fuel: real, k: real, r: real, s: real, t: real)
    ensures Co2(fuel, k, t * r + (1.0 - t) * s) == t * Co2(fuel, k, r) + (1.0 - t) * Co2(fuel, k, s)
  {
    var m := fuel * (k - JetA1Intensity);
    var base := fuel * JetA1Intensity;
    assert Co2(fuel, k, r) == base + m * r;
    assert Co2(fuel, k, s) == base + m * s;
    assert Co2(fuel, k, t * r + (1.0 - t) * s) == base + m * (t * r + (1.0 - t) * s);
    assert m * (t * r + (1.0 - t) * s) == t * (m * r) + (1.0 - t) * (m * s);
  }

  /**
   * For a positive fuel amount, raising the ratio lowers CO2e exactly when the
   * SAF coefficient is below Jet-A1's, leaves it unchanged exactly when they are
   * equal, and raises it otherwise.
   */
  lemma {:induction false} Co2Monotone(fuel: real, k: real, r: real, s: real)
    requires fuel > 0.0 && r < s
    ensures Co2(fuel, k, s) < Co2(fuel, k, r) <==> k < JetA1Intensity
    ensures Co2(fuel, k, s) == Co2(fuel, k, r) <==> k == JetA1Intensity
    ensures Co2(fuel, k, s) > Co2(fuel, k, r) <==> k > JetA1Intensity
  {
    Co2Slope(fuel, k, r, s);
    var g := fuel * (s - r);
    assert g > 0.0;
    assert fuel * (k - JetA1Intensity) * (s - r) == (k - JetA1Intensity) * g;
    if k < JetA1Intensity {
      assert (k - JetA1Intensity) * g < 0.0;
    } else if k > JetA1Intensity {
      assert (k - JetA1Intensity) * g > 0.0;
    }
  }

  /** Blended CO2e strictly falls with the ratio for all four registered pathways. */
  lemma {:induction false} RegisteredPathwaysDecrease(fuel: real, i: int, r: real, s: real)
    requires fuel > 0.0 && 0 <= i < 4 && r < s
    ensures PathwayFunction(i, fuel, s, false) < PathwayFunction(i, fuel, r, false)
  {
    SafCleanerThanFossil();
    Co2Monotone(fuel, SafTypes[i].intensity, r, s);
  }

  /**
   * HEFA is priced like Jet-A1, so its fuel cost is fuel * 1.3 at every ratio;
   * between ratios 0 and 1 its CO2e stays positive, so its cost is that fuel
   * cost plus the full CO2e, and it falls as the ratio grows.
   */
  lemma {:induction false} HefaCost(fuel: real, ratio: real)
    requires fuel > 0.0 && 0.0 <= ratio <= 1.0
    ensures FuelCost(fuel, HefaPathway.price, ratio) == fuel * 1.3
    ensures Hefa(fuel, ratio, false) > 0.0
    ensures Hefa(fuel, ratio, true) == fuel * 1.3 + Hefa(fuel, ratio, false)
    ensures ratio < 1.0 ==> Hefa(fuel, 1.0, true) < Hefa(fuel, ratio, true)
  {
    var co2 := Co2(fuel, 1.3, ratio);
    assert co2 == fuel * (3.84 - 2.54 * ratio);
    assert 3.84 - 2.54 * ratio > 0.0;
    assert co2 > 0.0;
    if ratio < 1.0 {
      Co2Monotone(fuel, 1.3, ratio, 1.0);
      Co2Endpoints(fuel, 1.3);
      assert Co2(fuel, 1.3, 1.0) > 0.0;
    }
  }
}
