/**
 * The footprint calculator: four emission components (kg CO2) from three
 * metered quantities and a diet category, scaled to a month.
 * Quantities are exact reals; parsing the form fields is the caller's job.
 */
module Footprint {

  /** The raw inputs, kept with the result so that they can be stored with it. */
  datatype Details = Details(electricity: real, car: real, publicTransport: real, diet: string)

  /** The last computed (not yet saved) footprint. */
  datatype Calculation = Calculation(
    electricity: real,
    car: real,
    transport: real,
    diet: real,
    total: real,
    period: string,
    details: Details)

  const ElectricityFactor: real := 0.5      // kg CO2 per kWh
  const CarFactor: real := 0.21             // kg CO2 per km
  const PublicTransportFactor: real := 0.05 // kg CO2 per km
  const DefaultDietFactor: real := 200.0

  /** Monthly diet emissions per category. */
  const DietFactors: map<string, real> := map[
    "vegan" := 50.0,
    "vegetarian" := 100.0,
    "meat-low" := 150.0,
    "meat-medium" := 250.0,
    "meat-high" := 400.0]

  /** Weekly figures are projected onto a four-week month; any other period counts as monthly. */
  function Multiplier(period: string): (m: real)
    ensures m == 4.0 <==> period == "weekly"
    ensures m == 1.0 <==> period != "weekly"
  {
    if period == "weekly" then 4.0 else 1.0
  }

  /**
   * `dietFactors[diet] || 200`: the table value when the category is listed
   * and its value is truthy (non-zero), 200 otherwise.
   */
  function DietFactor(diet: string): (f: real)
    ensures 50.0 <= f <= 400.0
    ensures diet in DietFactors ==> f == DietFactors[diet]
    ensures diet !in DietFactors ==> f == DefaultDietFactor
  {
    if diet in DietFactors && DietFactors[diet] != 0.0 then DietFactors[diet] else DefaultDietFactor
  }

  /** The calculator: every component of the result and its total. */
  function CalculateFootprint(electricity: real, car: real, publicTransport: real, diet: string, period: string)
    : (c: Calculation)
    ensures c.total == c.electricity + c.car + c.transport + c.diet
    ensures c.electricity == electricity * ElectricityFactor * Multiplier(period)
    ensures c.car == car * CarFactor * Multiplier(period)
    ensures c.transport == publicTransport * PublicTransportFactor * Multiplier(period)
    ensures c.diet == DietFactor(diet)
    ensures c.period == period && c.details == Details(electricity, car, publicTransport, diet)
  {
    var multiplier := Multiplier(period);
    var electricityEmissions := electricity * ElectricityFactor * multiplier;
    var carEmissions := car * CarFactor * multiplier;
    var transportEmissions := publicTransport * PublicTransportFactor * multiplier;
    var dietEmissions := DietFactor(diet);
    Calculation(electricityEmissions, carEmissions, transportEmissions, dietEmissions,
                electricityEmissions + carEmissions + transportEmissions + dietEmissions,
                period, Details(electricity, car, publicTransport, diet))
  }

  /** The diet component ignores the period; the metered components are four times the monthly ones when weekly. */
  lemma WeeklyIsFourTimesMonthly(electricity: real, car: real, publicTransport: real, diet: string)
    ensures var w := CalculateFootprint(electricity, car, publicTransport, diet, "weekly");
            var m := CalculateFootprint(electricity, car, publicTransport, diet, "monthly");
            && w.electricity == 4.0 * m.electricity
            && w.car == 4.0 * m.car
            && w.transport == 4.0 * m.transport
            && w.diet == m.diet
            && w.total == m.total + 3.0 * (m.electricity + m.car + m.transport)
  {
  }

  /** With non-negative quantities every component is non-negative and the total is at least the smallest diet factor. */
  lemma NonNegativeInputs(electricity: real, car: real, publicTransport: real, diet: string, period: string)
    requires electricity >= 0.0 && car >= 0.0 && publicTransport >= 0.0
    ensures var c := CalculateFootprint(electricity, car, publicTransport, diet, period);
            && c.electricity >= 0.0 && c.car >= 0.0 && c.transport >= 0.0 && c.diet >= 50.0
            && c.total >= 50.0
  {
  }

  /** The five listed categories get their table value; anything else gets 200. */
  lemma DietTable(diet: string)
    ensures DietFactor("vegan") == 50.0
    ensures DietFactor("vegetarian") == 100.0
    ensures DietFactor("meat-low") == 150.0
    ensures DietFactor("meat-medium") == 250.0
    ensures DietFactor("meat-high") == 400.0
    ensures diet !in {"vegan", "vegetarian", "meat-low", "meat-medium", "meat-high"} ==> DietFactor(diet) == 200.0
  {
  }

  /** 200 kWh, 100 km by car, 50 km by public transport, medium meat, per month. */
  lemma MonthlyExample()
    ensures var c := CalculateFootprint(200.0, 100.0, 50.0, "meat-medium", "monthly");
            c.electricity == 100.0 && c.car == 21.0 && c.transport == 2.5 && c.diet == 250.0 && c.total == 373.5
  {
  }

  /** The same quantities entered per week. */
  lemma WeeklyExample()
    ensures var c := CalculateFootprint(200.0, 100.0, 50.0, "meat-medium", "weekly");
            c.electricity == 400.0 && c.car == 84.0 && c.transport == 10.0 && c.diet == 250.0 && c.total == 744.0
  {
  }
}
