/**
 * Solution preparation calculator (ai_experiment_assistant/reagent_calc.py).
 *
 * Converts a target volume (mL) and molarity (mol/L) into the grams of a solid electrolyte
 * to weigh out, or into the millilitres of concentrated sulfuric acid to measure. Floating
 * point numbers are modelled as exact reals, so the formulas below hold with equality.
 */
module ReagentCalc {
  import opened Wrappers

  /** Molar masses in g/mol of the electrolytes the calculator knows, keyed by formula. */
  const MolarMasses: map<string, real> := map[
    "K2CO3" := 138.205,
    "Na2CO3" := 105.9888,
    "Na2CO3·10H2O" := 286.141,
    "KNO3" := 101.1032,
    "Sr(NO3)2" := 211.629,
    "Mg(NO3)2" := 148.313,
    "Mg(NO3)2·6H2O" := 256.41,
    "Na2SO4" := 142.04,
    "Na2SO4·10H2O" := 322.20,
    "H2SO4" := 98.079
  ]

  /** Mass fraction of H2SO4 in the concentrated acid. */
  const H2SO4Purity: real := 0.98
  /** Density of the concentrated acid in g/mL. */
  const H2SO4DensityGPerMl: real := 1.84

  datatype CalcError = UnknownFormula(formula: string)

  /** Moles of solute in volumeMl millilitres of a solution of the given molarity. */
  function Moles(volumeMl: real, molarity: real): real {
    (volumeMl / 1000.0) * molarity
  }

  /** Grams of solid needed; an unknown formula is an error. */
  function CalcSolidMass(formula: string, volumeMl: real, molarity: real): (r: Result<real, CalcError>)
    ensures r.Failure? <==> formula !in MolarMasses
    ensures r.Failure? ==> r.error == UnknownFormula(formula)
  {
    if formula !in MolarMasses then Failure(UnknownFormula(formula))
    else Success(Moles(volumeMl, molarity) * MolarMasses[formula])
  }

  /** Grams of pure H2SO4 needed. */
  function H2SO4PureMass(volumeMl: real, molarity: real): real {
    Moles(volumeMl, molarity) * MolarMasses["H2SO4"]
  }

  /** Grams of the concentrated (98 %) acid that carry the pure H2SO4 needed. */
  function H2SO4ConcentrateMass(volumeMl: real, molarity: real): real {
    H2SO4PureMass(volumeMl, molarity) / H2SO4Purity
  }

  /** Millilitres of the concentrated acid to measure out. */
  function CalcH2SO4Volume(volumeMl: real, molarity: real): (r: real)
    ensures r * H2SO4DensityGPerMl * H2SO4Purity == H2SO4PureMass(volumeMl, molarity)
  {
    H2SO4ConcentrateMass(volumeMl, molarity) / H2SO4DensityGPerMl
  }

  /** Every molar mass in the table is positive. */
  lemma MolarMassesPositive()
    ensures forall f :: f in MolarMasses ==> MolarMasses[f] > 0.0
  {
  }

  /** For a known formula the mass is (volume / 1000) · molarity · molar mass. */
  lemma SolidMassFormula(formula: string, volumeMl: real, molarity: real)
    requires formula in MolarMasses
    ensures CalcSolidMass(formula, volumeMl, molarity).value
         == volumeMl * molarity * MolarMasses[formula] / 1000.0
  {
    var mm := MolarMasses[formula];
    assert Moles(volumeMl, molarity) * mm * 1000.0 == volumeMl * molarity * mm;
  }

  /** The acid volume is the solid-mass formula for H2SO4, divided by purity and then density. */
  lemma H2SO4VolumeFromSolidMass(volumeMl: real, molarity: real)
    ensures CalcSolidMass("H2SO4", volumeMl, molarity).Success?
    ensures CalcH2SO4Volume(volumeMl, molarity)
         == CalcSolidMass("H2SO4", volumeMl, molarity).value / H2SO4Purity / H2SO4DensityGPerMl
  {
  }

  /** Non-negative volume and molarity give a non-negative mass. */
  lemma SolidMassNonNegative(formula: string, volumeMl: real, molarity: real)
    requires formula in MolarMasses
    requires volumeMl >= 0.0 && molarity >= 0.0
    ensures CalcSolidMass(formula, volumeMl, molarity).value >= 0.0
  {
    MolarMassesPositive();
  }

  /** Non-negative volume and molarity give a non-negative acid volume. */
  lemma H2SO4VolumeNonNegative(volumeMl: real, molarity: real)
    requires volumeMl >= 0.0 && molarity >= 0.0
    ensures CalcH2SO4Volume(volumeMl, molarity) >= 0.0
  {
  }

  /** Scaling the volume by k scales the mass by k. */
  lemma SolidMassLinearInVolume(formula: string, volumeMl: real, molarity: real, k: real)
    requires formula in MolarMasses
    ensures CalcSolidMass(formula, k * volumeMl, molarity).value
         == k * CalcSolidMass(formula, volumeMl, molarity).value
  {
  }

  /** Scaling the molarity by k scales the mass by k. */
  lemma SolidMassLinearInMolarity(formula: string, volumeMl: real, molarity: real, k: real)
    requires formula in MolarMasses
    ensures CalcSolidMass(formula, volumeMl, k * molarity).value
         == k * CalcSolidMass(formula, volumeMl, molarity).value
  {
  }

  /** Preparing two volumes separately needs as much solid as preparing their sum. */
  lemma SolidMassAdditiveInVolume(formula: string, v1: real, v2: real, molarity: real)
    requires formula in MolarMasses
    ensures CalcSolidMass(formula, v1 + v2, molarity).value
         == CalcSolidMass(formula, v1, molarity).value + CalcSolidMass(formula, v2, molarity).value
  {
  }

  /** Scaling the volume or the molarity by k scales the acid volume by k. */
  lemma H2SO4VolumeLinear(volumeMl: real, molarity: real, k: real)
    ensures CalcH2SO4Volume(k * volumeMl, molarity) == k * CalcH2SO4Volume(volumeMl, molarity)
    ensures CalcH2SO4Volume(volumeMl, k * molarity) == k * CalcH2SO4Volume(volumeMl, molarity)
  {
  }

  /** For a positive volume, a higher molarity needs strictly more solid. */
  lemma SolidMassIncreasesWithMolarity(formula: string, volumeMl: real, m1: real, m2: real)
    requires formula in MolarMasses
    requires volumeMl > 0.0 && m1 < m2
    ensures CalcSolidMass(formula, volumeMl, m1).value < CalcSolidMass(formula, volumeMl, m2).value
  {
    MolarMassesPositive();
    var mm := MolarMasses[formula];
    assert CalcSolidMass(formula, volumeMl, m2).value - CalcSolidMass(formula, volumeMl, m1).value
        == (volumeMl / 1000.0) * (m2 - m1) * mm;
  }

  /** For a positive volume, a higher molarity needs strictly more acid. */
  lemma H2SO4VolumeIncreasesWithMolarity(volumeMl: real, m1: real, m2: real)
    requires volumeMl > 0.0 && m1 < m2
    ensures CalcH2SO4Volume(volumeMl, m1) < CalcH2SO4Volume(volumeMl, m2)
  {
    SolidMassIncreasesWithMolarity("H2SO4", volumeMl, m1, m2);
    H2SO4VolumeFromSolidMass(volumeMl, m1);
    H2SO4VolumeFromSolidMass(volumeMl, m2);
  }

  /** The concentrate weighs at least as much as the pure acid it carries (purity <= 1). */
  lemma ConcentrateAtLeastPure(volumeMl: real, molarity: real)
    requires volumeMl >= 0.0 && molarity >= 0.0
    ensures H2SO4ConcentrateMass(volumeMl, molarity) >= H2SO4PureMass(volumeMl, molarity)
  {
  }

  /** 500 mL of 0.1 M K2CO3 needs 6.91025 g of solid. */
  lemma PotassiumCarbonateExample()
    ensures CalcSolidMass("K2CO3", 500.0, 0.1) == Success(6.91025)
  {
  }

  /** 500 mL of 0.1 M H2SO4 needs about 2.7196 mL of the concentrated acid. */
  lemma SulfuricAcidExample()
    ensures 2.7195 < CalcH2SO4Volume(500.0, 0.1) < 2.7196
  {
  }
}
