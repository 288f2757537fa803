/** The health-metric rules of helpers.py: BMI and its category, the healthy
    weight range, the daily water target, the weight difference between the
    two newest samples, and the series behind the two progression charts. */
module Metrics {
  import opened Wrappers

  /** Centimetres per metre. */
  const CmToMeters: real := 100.0

  /** Millilitres of water per kilogram of body weight for an active person. */
  const AvgWaterMlPerKg: real := 40.0

  /** BMI values at the edges of the categories. */
  const HealthyLowerBmi: real := 18.5
  const OverweightBmi: real := 25.0
  const ObeseBmi: real := 30.0

  /** The upper BMI of the healthy weight range. It sits below OverweightBmi:
      the source uses 24.9 here but 25 as the category boundary. */
  const HealthyUpperBmi: real := 24.9

  /** One row of the Activity table; a timestamp is a number of seconds. */
  datatype ActivitySample = ActivitySample(
    userId: int,
    age: int,
    gender: string,
    weight: real,
    height: real,
    activityType: string,
    duration: int,
    intensity: string,
    restingHeartRate: int,
    exerciseHeartRate: int,
    bodyFatPercentage: real,
    muscleMass: real,
    waterIntake: real,
    registeredAt: int)

  // ---------------------------------------------------------------------------
  // Rounding and BMI
  // ---------------------------------------------------------------------------

  /** round(x, 1), on exact reals with halves rounded up. */
  function Round1(x: real): (r: real)
    ensures x - 0.05 < r <= x + 0.05
  {
    ((x * 10.0 + 0.5).Floor as real) / 10.0
  }

  lemma Round1Monotone(x: real, y: real)
    requires x <= y
    ensures Round1(x) <= Round1(y)
  {
    var a, b := (x * 10.0 + 0.5).Floor, (y * 10.0 + 0.5).Floor;
    assert a as real <= x * 10.0 + 0.5 <= y * 10.0 + 0.5 < b as real + 1.0;
    assert a <= b;
  }

  /** The height in metres. */
  function Meters(heightCm: real): (m: real)
    ensures heightCm != 0.0 ==> m != 0.0
  {
    heightCm / CmToMeters
  }

  /** Square of the height in metres. */
  function HeightSquared(heightCm: real): (m2: real)
    ensures m2 >= 0.0
  {
    Meters(heightCm) * Meters(heightCm)
  }

  /** weight / height² with the height in metres, before rounding (divided
      by the height twice, which is the same quotient). */
  function Bmi(weightKg: real, heightCm: real): real
    requires heightCm != 0.0
  {
    weightKg / Meters(heightCm) / Meters(heightCm)
  }

  /** The BMI is the weight per square metre: multiplied back by the squared
      height in metres it gives the weight. */
  lemma BmiIsWeightPerSquareMetre(weightKg: real, heightCm: real)
    requires heightCm != 0.0
    ensures Bmi(weightKg, heightCm) * HeightSquared(heightCm) == weightKg
  {
    var m := Meters(heightCm);
    assert Bmi(weightKg, heightCm) * m == weightKg / m;
  }

  /** calculate_bmi: the BMI rounded to one decimal. */
  function CalculateBmi(weightKg: real, heightCm: real): (bmi: real)
    requires heightCm != 0.0
    ensures Bmi(weightKg, heightCm) - 0.05 < bmi <= Bmi(weightKg, heightCm) + 0.05
  {
    Round1(Bmi(weightKg, heightCm))
  }

  // ---------------------------------------------------------------------------
  // bmi_category
  // ---------------------------------------------------------------------------

  datatype BmiCategory = Underweight | HealthyWeight | Overweight | Obese

  /** The text bmi_category returns for a category. */
  function Label(c: BmiCategory): (s: string)
    ensures s in ["Underweight", "Healthy Weight", "Overweight", "Obese"]
  {
    match c
    case Underweight => "Underweight"
    case HealthyWeight => "Healthy Weight"
    case Overweight => "Overweight"
    case Obese => "Obese"
  }

  /** The four texts are pairwise different, so the text names the category. */
  lemma LabelsDistinct(c: BmiCategory, d: BmiCategory)
    ensures Label(c) == Label(d) <==> c == d
  {
    if c != d {
      assert |Label(c)| != |Label(d)|;
    }
  }

  /** Position of a category from lightest to heaviest. */
  function Rank(c: BmiCategory): nat
  {
    match c
    case Underweight => 0
    case HealthyWeight => 1
    case Overweight => 2
    case Obese => 3
  }

  /** bmi_category: closed-open bands [18.5, 25), [25, 30), and 30 upwards. */
  function Category(bmi: real): (c: BmiCategory)
    ensures c == Underweight <==> bmi < HealthyLowerBmi
    ensures c == HealthyWeight <==> HealthyLowerBmi <= bmi < OverweightBmi
    ensures c == Overweight <==> OverweightBmi <= bmi < ObeseBmi
    ensures c == Obese <==> ObeseBmi <= bmi
  {
    if bmi < 18.5 then Underweight
    else if 18.5 <= bmi < 25.0 then HealthyWeight
    else if 25.0 <= bmi < 30.0 then Overweight
    else Obese
  }

  /** bmi_category as the source writes it, returning text: each of the four
      texts comes back exactly on its band. */
  lemma BmiCategoryText(bmi: real)
    ensures Label(Category(bmi)) == "Underweight" <==> bmi < 18.5
    ensures Label(Category(bmi)) == "Healthy Weight" <==> 18.5 <= bmi < 25.0
    ensures Label(Category(bmi)) == "Overweight" <==> 25.0 <= bmi < 30.0
    ensures Label(Category(bmi)) == "Obese" <==> 30.0 <= bmi
  {
    var c := Category(bmi);
    LabelsDistinct(c, Underweight);
    LabelsDistinct(c, HealthyWeight);
    LabelsDistinct(c, Overweight);
    LabelsDistinct(c, Obese);
  }

  /** The label never goes down as the BMI goes up. */
  lemma CategoryMonotone(b1: real, b2: real)
    requires b1 <= b2
    ensures Rank(Category(b1)) <= Rank(Category(b2))
  {
  }

  // ---------------------------------------------------------------------------
  // calculate_bmi_and_category
  // ---------------------------------------------------------------------------

  /** Python truthiness of an optional number: present and non-zero. */
  predicate Truthy(x: Option<real>)
  {
    x.Some? && x.value != 0.0
  }

  /** (None, None) unless both weight and height are truthy; otherwise the
      rounded BMI and the category of that rounded value. */
  function CalculateBmiAndCategory(weightKg: Option<real>, heightCm: Option<real>)
    : (r: (Option<real>, Option<BmiCategory>))
    ensures r.0.None? <==> !Truthy(weightKg) || !Truthy(heightCm)
    ensures r.1.None? <==> r.0.None?
    ensures r.0.Some? ==> r.1 == Some(Category(r.0.value))
    ensures r.0.Some? ==> r.0.value == CalculateBmi(weightKg.value, heightCm.value)
  {
    if Truthy(weightKg) && Truthy(heightCm) then
      var bmi := CalculateBmi(weightKg.value, heightCm.value);
      (Some(bmi), Some(Category(bmi)))
    else
      (None, None)
  }

  // ---------------------------------------------------------------------------
  // calculate_healthy_weight_range
  // ---------------------------------------------------------------------------

  /** The weights, rounded, at BMI 18.5 and 24.9 for the given height. */
  function HealthyWeightRange(heightCm: Option<real>): (r: Option<(real, real)>)
    ensures r.None? <==> heightCm.None?
    ensures r.Some? ==> r.value.0 <= r.value.1
  {
    match heightCm
    case None => None
    case Some(h) =>
      var m2 := HeightSquared(h);
      Round1Monotone(HealthyLowerBmi * m2, HealthyUpperBmi * m2);
      Some((Round1(HealthyLowerBmi * m2), Round1(HealthyUpperBmi * m2)))
  }

  /** The range's upper constant and the category boundary disagree: a BMI
      between 24.9 and 25 lies above the range yet is labelled Healthy Weight. */
  lemma HealthyRangeQuirk(bmi: real)
    requires HealthyUpperBmi < bmi < OverweightBmi
    ensures Category(bmi) == HealthyWeight
    ensures Category(HealthyUpperBmi) == HealthyWeight
  {
  }

  // ---------------------------------------------------------------------------
  // calculate_daily_water_intake
  // ---------------------------------------------------------------------------

  /** 40 mL per kg of the latest sample's weight, in litres; None without a
      sample. */
  function DailyWaterIntake(latest: Option<ActivitySample>): (litres: Option<real>)
    ensures litres.None? <==> latest.None?
    ensures litres.Some? ==> litres.value * 1000.0 == AvgWaterMlPerKg * latest.value.weight
  {
    match latest
    case None => None
    case Some(sample) => Some((AvgWaterMlPerKg * sample.weight) / 1000.0)
  }

  /** 80 kg gives 3.2 litres. */
  lemma DailyWaterIntakeAt80(sample: ActivitySample)
    requires sample.weight == 80.0
    ensures DailyWaterIntake(Some(sample)) == Some(3.2)
  {
  }

  // ---------------------------------------------------------------------------
  // calculate_weight_difference
  // ---------------------------------------------------------------------------

  /** Newest weight minus the one before it, for samples ordered newest
      first; 0 with fewer than two samples. */
  function WeightDifference(newestFirst: seq<ActivitySample>): (d: real)
    ensures |newestFirst| < 2 ==> d == 0.0
    ensures |newestFirst| >= 2 ==> d + newestFirst[1].weight == newestFirst[0].weight
  {
    if |newestFirst| >= 2 then newestFirst[0].weight - newestFirst[1].weight
    else 0.0
  }

  /** Only the two newest samples matter. */
  lemma WeightDifferenceIgnoresOlder(newestFirst: seq<ActivitySample>, older: seq<ActivitySample>)
    requires |newestFirst| >= 2
    ensures WeightDifference(newestFirst + older) == WeightDifference(newestFirst)
  {
  }

  /** Recording a new sample makes the difference its weight minus the
      previous newest weight. */
  lemma WeightDifferenceAfterRecording(sample: ActivitySample, newestFirst: seq<ActivitySample>)
    requires newestFirst != []
    ensures WeightDifference([sample] + newestFirst) == sample.weight - newestFirst[0].weight
  {
  }

  // ---------------------------------------------------------------------------
  // extract_weight_and_dates, calculate_bmi_by_activity
  // ---------------------------------------------------------------------------

  function Weights(samples: seq<ActivitySample>): (ws: seq<real>)
    ensures |ws| == |samples|
    ensures forall i :: 0 <= i < |samples| ==> ws[i] == samples[i].weight
  {
    if samples == [] then [] else [samples[0].weight] + Weights(samples[1..])
  }

  function RegisteredAts(samples: seq<ActivitySample>): (ts: seq<int>)
    ensures |ts| == |samples|
    ensures forall i :: 0 <= i < |samples| ==> ts[i] == samples[i].registeredAt
  {
    if samples == [] then [] else [samples[0].registeredAt] + RegisteredAts(samples[1..])
  }

  /** extract_weight_and_dates: the weights and timestamps, in input order. */
  function ExtractWeightAndDates(samples: seq<ActivitySample>): (r: (seq<real>, seq<int>))
    ensures |r.0| == |samples| && |r.1| == |samples|
    ensures forall i :: 0 <= i < |samples| ==>
              r.0[i] == samples[i].weight && r.1[i] == samples[i].registeredAt
  {
    (Weights(samples), RegisteredAts(samples))
  }

  /** Every sample has a height to divide by. */
  predicate HeightsNonZero(samples: seq<ActivitySample>)
  {
    forall i :: 0 <= i < |samples| ==> samples[i].height != 0.0
  }

  /** calculate_bmi_by_activity: each sample's own rounded BMI, in input order. */
  function BmiByActivity(samples: seq<ActivitySample>): (bmis: seq<real>)
    requires HeightsNonZero(samples)
    ensures |bmis| == |samples|
    ensures forall i :: 0 <= i < |samples| ==>
              bmis[i] == CalculateBmi(samples[i].weight, samples[i].height)
  {
    if samples == [] then []
    else [CalculateBmi(samples[0].weight, samples[0].height)] + BmiByActivity(samples[1..])
  }

  /** A sample recorded last shows up as the last point of each series. */
  lemma {:induction false} SeriesAppend(samples: seq<ActivitySample>, sample: ActivitySample)
    requires HeightsNonZero(samples) && sample.height != 0.0
    ensures HeightsNonZero(samples + [sample])
    ensures Weights(samples + [sample]) == Weights(samples) + [sample.weight]
    ensures RegisteredAts(samples + [sample]) == RegisteredAts(samples) + [sample.registeredAt]
    ensures BmiByActivity(samples + [sample]) ==
            BmiByActivity(samples) + [CalculateBmi(sample.weight, sample.height)]
  {
    var all := samples + [sample];
    assert forall i :: 0 <= i < |samples| ==> all[i] == samples[i];
    assert all[|samples|] == sample;
  }

  // ---------------------------------------------------------------------------
  // create_weight_plot, create_bmi_plot
  // ---------------------------------------------------------------------------

  /** The data a progression chart draws: one (timestamp, value) point per
      sample, in input order. It stands for the rendered PNG. */
  datatype Chart = Chart(values: seq<real>, registeredAt: seq<int>)

  /** create_weight_plot: no chart for an empty history. */
  function CreateWeightPlot(samples: seq<ActivitySample>): (r: Option<Chart>)
    ensures r.None? <==> samples == []
    ensures r.Some? ==> |r.value.values| == |r.value.registeredAt| == |samples|
    ensures r.Some? ==> forall i :: 0 <= i < |samples| ==>
              r.value.values[i] == samples[i].weight &&
              r.value.registeredAt[i] == samples[i].registeredAt
  {
    if samples == [] then None
    else
      var (weights, dates) := ExtractWeightAndDates(samples);
      Some(Chart(weights, dates))
  }

  /** create_bmi_plot: no chart for an empty history. */
  function CreateBmiPlot(samples: seq<ActivitySample>): (r: Option<Chart>)
    requires HeightsNonZero(samples)
    ensures r.None? <==> samples == []
    ensures r.Some? ==> |r.value.values| == |r.value.registeredAt| == |samples|
    ensures r.Some? ==> forall i :: 0 <= i < |samples| ==>
              r.value.values[i] == CalculateBmi(samples[i].weight, samples[i].height) &&
              r.value.registeredAt[i] == samples[i].registeredAt
  {
    if samples == [] then None
    else Some(Chart(BmiByActivity(samples), RegisteredAts(samples)))
  }
}
