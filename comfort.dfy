/** The comfort decision (main.py lines 59-81): the comparison day, the
    season of its month, and the seasonal rule that picks a city. */
module Comfort {
  import opened Wrappers
  import opened Errors
  import opened Calendar
  import opened Series

  datatype City = Astana | Almaty

  datatype Season = Winter | Summer | Shoulder

  /** The temperature the shoulder-season rule aims for, in degrees Celsius. */
  const Target: real := 20.0

  /** `season_by_month`: December to February is winter, June to August
      summer, and every other month, in range or not, the shoulder season. */
  function SeasonByMonth(m: int): Season
  {
    if m in {12, 1, 2} then Winter
    else if m in {6, 7, 8} then Summer
    else Shoulder
  }

  function Abs(x: real): real
  {
    if x < 0.0 then -x else x
  }

  /** Lines 69-80: winter favours the strictly warmer city, summer the
      strictly cooler one, otherwise Almaty; the shoulder season favours the
      city nearer the target, Astana on a tie. */
  function Winner(season: Season, astana: real, almaty: real): City
  {
    match season
    case Winter => if astana > almaty then Astana else Almaty
    case Summer => if astana < almaty then Astana else Almaty
    case Shoulder => if Abs(astana - Target) <= Abs(almaty - Target) then Astana else Almaty
  }

  /** How comfortable a temperature is in a season, higher being better. */
  function ComfortScore(season: Season, t: real): real
  {
    match season
    case Winter => t
    case Summer => -t
    case Shoulder => -Abs(t - Target)
  }

  function Other(c: City): City
  {
    if c == Astana then Almaty else Astana
  }

  function TemperatureOf(c: City, astana: real, almaty: real): real
  {
    if c == Astana then astana else almaty
  }

  /** The winner is the city of strictly higher comfort; a tie goes to
      Almaty in winter and summer, and to Astana in the shoulder season. */
  lemma WinnerByComfort(season: Season, astana: real, almaty: real)
    ensures Winner(season, astana, almaty) == Astana <==>
      || ComfortScore(season, astana) > ComfortScore(season, almaty)
      || (season == Shoulder && ComfortScore(season, astana) == ComfortScore(season, almaty))
    ensures ComfortScore(season, TemperatureOf(Winner(season, astana, almaty), astana, almaty))
         >= ComfortScore(season, TemperatureOf(Other(Winner(season, astana, almaty)), astana, almaty))
  {
  }

  /** The rule favours neither city by name when comfort differs: swapping
      the two temperatures swaps the winner. */
  lemma WinnerSwaps(season: Season, astana: real, almaty: real)
    requires ComfortScore(season, astana) != ComfortScore(season, almaty)
    ensures Winner(season, almaty, astana) == Other(Winner(season, astana, almaty))
  {
  }

  /** `season_by_month` agrees with the quarter of the meteorological year a
      month falls in: quarter 0 is winter, quarter 2 summer. */
  lemma SeasonByQuarter(m: int)
    requires 1 <= m <= 12
    ensures SeasonByMonth(m) == Winter <==> (m % 12) / 3 == 0
    ensures SeasonByMonth(m) == Summer <==> (m % 12) / 3 == 2
    ensures SeasonByMonth(m) == Shoulder <==> (m % 12) / 3 in {1, 3}
  {
  }

  /** The last day of a series; interpolation leaves no day unset, so it is
      also the last day with a known value. */
  function LastKnownDay(s: Daily): int
    requires |s.values| > 0
  {
    s.start + |s.values| - 1
  }

  /** `s.loc[d]`: the value on day `d`, missing outside the series. */
  function ValueAt(s: Daily, d: int): Option<real>
  {
    if s.start <= d < s.start + |s.values| then Some(s.values[d - s.start]) else None
  }

  /** The decision: the comparison day, both temperatures on it, its season
      and the winning city. */
  datatype Decision = Decision(day: int, astana: real, almaty: real, season: Season, winner: City)

  /** Lines 64-81: compare on the earlier of the two last days, read both
      temperatures there (`s.loc`, which fails before a series starts), and
      apply the rule of that day's season. */
  function Decide(astana: Daily, almaty: Daily): Result<Decision, Error>
    requires |astana.values| > 0 && |almaty.values| > 0
  {
    var a, b := LastKnownDay(astana), LastKnownDay(almaty);
    var day := if b < a then b else a;
    match (ValueAt(astana, day), ValueAt(almaty, day))
    case (None, _) => Failure(MissingDay("Astana", day))
    case (_, None) => Failure(MissingDay("Almaty", day))
    case (Some(ta), Some(tm)) =>
      var season := SeasonByMonth(FromDays(day).month);
      Success(Decision(day, ta, tm, season, Winner(season, ta, tm)))
  }

  /** The comparison day is the earlier of the two last known days; the
      decision fails exactly when a series starts after it (Astana checked
      first); otherwise both temperatures are read on that day, the season
      is that of its month, and the seasonal rule picks the winner. */
  lemma DecideSpec(astana: Daily, almaty: Daily)
    requires |astana.values| > 0 && |almaty.values| > 0
    ensures var day := if LastKnownDay(astana) <= LastKnownDay(almaty) then LastKnownDay(astana) else LastKnownDay(almaty);
      && (Decide(astana, almaty).Failure? <==> astana.start > day || almaty.start > day)
      && (astana.start > day ==> Decide(astana, almaty) == Failure(MissingDay("Astana", day)))
      && (astana.start <= day < almaty.start ==> Decide(astana, almaty) == Failure(MissingDay("Almaty", day)))
      && (Decide(astana, almaty).Success? ==>
           var r := Decide(astana, almaty).value;
           && r.day == day && day <= LastKnownDay(astana) && day <= LastKnownDay(almaty)
           && r.astana == astana.values[day - astana.start]
           && r.almaty == almaty.values[day - almaty.start]
           && r.season == SeasonByMonth(FromDays(day).month)
           && (r.season == Winter ==> (r.winner == Astana <==> r.astana > r.almaty))
           && (r.season == Summer ==> (r.winner == Astana <==> r.astana < r.almaty))
           && (r.season == Shoulder ==> (r.winner == Astana <==> Abs(r.astana - Target) <= Abs(r.almaty - Target))))
  {
  }

  /** One observation per city on 2024-01-10, 2024-07-15 and 2024-04-10:
      winter prefers the warmer Almaty, summer the cooler Astana, and the
      shoulder season Astana, two degrees from the target against three. */
  lemma WinterExample()
    ensures Decide(Daily(19732, [-5.0]), Daily(19732, [-2.0])) == Success(Decision(19732, -5.0, -2.0, Winter, Almaty))
  {
    FromDaysExamples();
  }

  lemma SummerExample()
    ensures Decide(Daily(19919, [30.0]), Daily(19919, [33.0])) == Success(Decision(19919, 30.0, 33.0, Summer, Astana))
  {
    FromDaysExamples();
  }

  lemma ShoulderExample()
    ensures Decide(Daily(19823, [18.0]), Daily(19823, [23.0])) == Success(Decision(19823, 18.0, 23.0, Shoulder, Astana))
  {
    FromDaysExamples();
  }

  /** Series ending on different days are compared on the earlier last day;
      a series that starts after it has no value there. */
  lemma ComparisonDayExamples()
    ensures Decide(Daily(19730, [-9.0, -8.0, -7.0]), Daily(19731, [-6.0])).value.day == 19731
    ensures Decide(Daily(19730, [-9.0, -8.0, -7.0]), Daily(19731, [-6.0])).value.astana == -8.0
    ensures Decide(Daily(19733, [1.0]), Daily(19730, [-9.0, -8.0])) == Failure(MissingDay("Astana", 19731))
  {
    FromDaysExamples();
  }
}
