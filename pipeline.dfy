/** The script as a whole (main.py lines 19-81): normalise the table, build
    the Astana series and then the Almaty series, and decide. */
module Pipeline {
  import opened Wrappers
  import opened Errors
  import opened Seqs
  import opened Text
  import opened Normalizer
  import opened Series
  import opened Comfort

  /** What a run produces: the bad date texts the diagnostic printed, and the
      decision or the error that stopped the script. */
  datatype Report = Report(badDates: seq<string>, outcome: Result<Decision, Error>)

  /** Lines 19-81; errors surface in the order the script raises them. */
  function Run(t: Table, parseDate: string -> Option<int>, parseNumber: string -> Option<real>): (r: Report)
    ensures |r.badDates| <= ShownBadDates
    ensures r.outcome == Failure(MissingColumns(t.columns)) <==> !(RequiredColumns <= t.columns)
  {
    match Clean(t, parseDate, parseNumber)
    case Failure(e) => Report([], Failure(e))
    case Success(c) =>
      assert |c.badDates| <= ShownBadDates by {
        BadDateDiagnostic(t, parseDate, parseNumber, c);
      }
      match PrepareSeries(c.records, "Astana")
      case Failure(e) => Report(c.badDates, Failure(e))
      case Success(astana) =>
        match PrepareSeries(c.records, "Almaty")
        case Failure(e) => Report(c.badDates, Failure(e))
        case Success(almaty) => Report(c.badDates, Decide(astana, almaty))
  }

  /** The script's statements in order, on top of the statement-by-statement
      normaliser. */
  method Script(t: Table, parseDate: string -> Option<int>, parseNumber: string -> Option<real>)
    returns (r: Report)
    ensures r == Run(t, parseDate, parseNumber)
  {
    var cleaned := Normalize(t, parseDate, parseNumber);
    if cleaned.Failure? {
      return Report([], Failure(cleaned.error));
    }
    var c := cleaned.value;
    var astana := PrepareSeries(c.records, "Astana");
    if astana.Failure? {
      return Report(c.badDates, Failure(astana.error));
    }
    var almaty := PrepareSeries(c.records, "Almaty");
    if almaty.Failure? {
      return Report(c.badDates, Failure(almaty.error));
    }
    r := Report(c.badDates, Decide(astana.value, almaty.value));
  }

  /** Bad dates do not abort the run: whatever the outcome, the diagnostic
      holds the first ten bad date texts of the table. */
  lemma RunReportsBadDates(t: Table, parseDate: string -> Option<int>, parseNumber: string -> Option<real>)
    requires RequiredColumns <= t.columns
    ensures Run(t, parseDate, parseNumber).badDates == Take(FilterMap(RowBad(parseDate), t.rows), ShownBadDates)
  {
    CleanIsRowWise(t, parseDate, parseNumber);
  }

  /** The run fails for want of Astana data exactly when no row survives
      normalisation as an Astana record. */
  lemma RunWithoutAstana(t: Table, parseDate: string -> Option<int>, parseNumber: string -> Option<real>)
    requires RequiredColumns <= t.columns
    ensures Run(t, parseDate, parseNumber).outcome == Failure(NoData("Astana")) <==>
      forall i, rec :: 0 <= i < |t.rows| && Survives(parseDate, parseNumber, t.rows[i], rec) ==> rec.city != "Astana"
  {
    var c := Clean(t, parseDate, parseNumber).value;
    AstanaFailsFirst(t, parseDate, parseNumber, c);
    SeriesOutcome(c.records, "Astana");
    NoRecordOfCity(t, parseDate, parseNumber, c, "Astana");
  }

  /** Only the Astana series can fail with "no data for Astana". */
  lemma AstanaFailsFirst(t: Table, parseDate: string -> Option<int>, parseNumber: string -> Option<real>, c: Cleaned)
    requires Clean(t, parseDate, parseNumber) == Success(c)
    ensures Run(t, parseDate, parseNumber).outcome == Failure(NoData("Astana")) <==>
      PrepareSeries(c.records, "Astana") == Failure(NoData("Astana"))
  {
    if PrepareSeries(c.records, "Astana").Success? && PrepareSeries(c.records, "Almaty").Success? {
      var astana, almaty := PrepareSeries(c.records, "Astana").value, PrepareSeries(c.records, "Almaty").value;
      DecideSpec(astana, almaty);
    }
  }

  /** No cleaned record names `city` exactly when no row survives as one. */
  lemma NoRecordOfCity(t: Table, parseDate: string -> Option<int>, parseNumber: string -> Option<real>, c: Cleaned, city: string)
    requires Clean(t, parseDate, parseNumber) == Success(c)
    ensures (forall k :: 0 <= k < |c.records| ==> c.records[k].city != city) <==>
      forall i, rec :: 0 <= i < |t.rows| && Survives(parseDate, parseNumber, t.rows[i], rec) ==> rec.city != city
  {
    if forall i, rec :: 0 <= i < |t.rows| && Survives(parseDate, parseNumber, t.rows[i], rec) ==> rec.city != city {
      forall k | 0 <= k < |c.records|
        ensures c.records[k].city != city
      {
        SurvivingRecord(t, parseDate, parseNumber, c, c.records[k]);
      }
    } else {
      var i, rec :| 0 <= i < |t.rows| && Survives(parseDate, parseNumber, t.rows[i], rec) && rec.city == city;
      SurvivingRecord(t, parseDate, parseNumber, c, rec);
      var k :| 0 <= k < |c.records| && c.records[k] == rec;
    }
  }

  /** A decision is only reached when both cities have records; it is taken
      on a day inside both series, the earlier of their last days. */
  lemma RunDecision(t: Table, parseDate: string -> Option<int>, parseNumber: string -> Option<real>)
    requires Run(t, parseDate, parseNumber).outcome.Success?
    ensures var c := Clean(t, parseDate, parseNumber).value;
      var r := Run(t, parseDate, parseNumber).outcome.value;
      && PrepareSeries(c.records, "Astana").Success?
      && PrepareSeries(c.records, "Almaty").Success?
      && (exists k :: 0 <= k < |c.records| && c.records[k].city == "Astana" && c.records[k].day >= r.day)
      && (exists k :: 0 <= k < |c.records| && c.records[k].city == "Almaty" && c.records[k].day >= r.day)
      && (exists k :: 0 <= k < |c.records| && c.records[k].city in {"Astana", "Almaty"} && c.records[k].day == r.day)
  {
    var c := Clean(t, parseDate, parseNumber).value;
    var astana := PrepareSeries(c.records, "Astana").value;
    var almaty := PrepareSeries(c.records, "Almaty").value;
    DecideSpec(astana, almaty);
    SeriesSpan(c.records, "Astana", astana);
    SeriesSpan(c.records, "Almaty", almaty);
  }

  /** The example table: a padded Cyrillic alias for each city, a sentinel
      date, a missing date and an impossible date. */
  function ExampleTable(): Table
  {
    Table(RequiredColumns, [
      RawRow(Some(" 2024-01-10 "), Some("Астана"), Some("-5")),
      RawRow(Some("2024-01-10"), Some(" Алма-Ата"), Some("-2")),
      RawRow(Some("..."), Some("Astana"), Some("0")),
      RawRow(None, Some("Almaty"), Some("0")),
      RawRow(Some("31/02/2024"), Some("Almaty"), Some("0"))])
  }

  function ExampleDate(s: string): Option<int>
  {
    if s == "2024-01-10" then Some(19732) else None
  }

  function ExampleNumber(s: string): Option<real>
  {
    if s == "-5" then Some(-5.0) else if s == "-2" then Some(-2.0) else if s == "0" then Some(0.0) else None
  }

  /** The fate of each example row on its own: the two aliased rows survive
      under their canonical names, the sentinel and missing dates vanish,
      and the impossible date is reported. */
  lemma ExampleAstanaRow()
    ensures RowRecord(ExampleDate, ExampleNumber, ExampleTable().rows[0]) == Some(Record(19732, "Astana", -5.0))
    ensures RowBadDate(ExampleDate, ExampleTable().rows[0]) == None
  {
    assert " 2024-01-10 " == " " + "2024-01-10" + " ";
    TrimPadded("2024-01-10");
    TrimTrimmed("Астана");
  }

  lemma ExampleAlmatyRow()
    ensures RowRecord(ExampleDate, ExampleNumber, ExampleTable().rows[1]) == Some(Record(19732, "Almaty", -2.0))
    ensures RowBadDate(ExampleDate, ExampleTable().rows[1]) == None
  {
    TrimTrimmed("2024-01-10");
    assert " Алма-Ата" == " " + "Алма-Ата";
    TrimPadded("Алма-Ата");
  }

  lemma ExampleDroppedRows()
    ensures RowRecord(ExampleDate, ExampleNumber, ExampleTable().rows[2]) == None
    ensures RowBadDate(ExampleDate, ExampleTable().rows[2]) == None
    ensures RowRecord(ExampleDate, ExampleNumber, ExampleTable().rows[3]) == None
    ensures RowBadDate(ExampleDate, ExampleTable().rows[3]) == None
  {
    TrimTrimmed("...");
  }

  lemma ExampleBadRow()
    ensures RowRecord(ExampleDate, ExampleNumber, ExampleTable().rows[4]) == None
    ensures RowBadDate(ExampleDate, ExampleTable().rows[4]) == Some("31/02/2024")
  {
    TrimTrimmed("31/02/2024");
  }

  /** The example table keeps the two aliased rows and reports the
      impossible date. */
  lemma ExampleClean()
    ensures Clean(ExampleTable(), ExampleDate, ExampleNumber)
      == Success(Cleaned([Record(19732, "Astana", -5.0), Record(19732, "Almaty", -2.0)], ["31/02/2024"]))
  {
    CleanIsRowWise(ExampleTable(), ExampleDate, ExampleNumber);
    ExampleRecords();
    ExampleBadDates();
  }

  lemma ExampleRecords()
    ensures FilterMap(RowStep(ExampleDate, ExampleNumber), ExampleTable().rows)
         == [Record(19732, "Astana", -5.0), Record(19732, "Almaty", -2.0)]
  {
    var f, rows := RowStep(ExampleDate, ExampleNumber), ExampleTable().rows;
    FilterMapFive(f, rows);
    assert Kept(f(rows[0])) == [Record(19732, "Astana", -5.0)] by { ExampleAstanaRow(); }
    assert Kept(f(rows[1])) == [Record(19732, "Almaty", -2.0)] by { ExampleAlmatyRow(); }
    assert Kept(f(rows[2])) == [] && Kept(f(rows[3])) == [] by { ExampleDroppedRows(); }
    assert Kept(f(rows[4])) == [] by { ExampleBadRow(); }
  }

  lemma ExampleBadDates()
    ensures FilterMap(RowBad(ExampleDate), ExampleTable().rows) == ["31/02/2024"]
  {
    var f, rows := RowBad(ExampleDate), ExampleTable().rows;
    FilterMapFive(f, rows);
    assert Kept(f(rows[0])) == [] by { ExampleAstanaRow(); }
    assert Kept(f(rows[1])) == [] by { ExampleAlmatyRow(); }
    assert Kept(f(rows[2])) == [] && Kept(f(rows[3])) == [] by { ExampleDroppedRows(); }
    assert Kept(f(rows[4])) == ["31/02/2024"] by { ExampleBadRow(); }
  }

  /** A city with one record on 2024-01-10 gets the one-day series of it. */
  lemma ExampleSeries(recs: seq<Record>, city: string, t: real)
    requires recs == [Record(19732, "Astana", -5.0), Record(19732, "Almaty", -2.0)]
    requires Record(19732, city, t) in recs
    ensures PrepareSeries(recs, city) == Success(Daily(19732, [t]))
  {
    ExampleObservations(recs, city, t);
    SingleObservation(recs, city, 19732, t);
  }

  lemma ExampleObservations(recs: seq<Record>, city: string, t: real)
    requires recs == [Record(19732, "Astana", -5.0), Record(19732, "Almaty", -2.0)]
    requires Record(19732, city, t) in recs
    ensures Observations(recs, city) == [Obs(19732, t)]
    ensures !HasDuplicateDay(recs, city)
  {
    FilterMapTwo(OfCity(city), recs);
  }

  /** A city observed exactly once gets the one-day series of that observation. */
  lemma SingleObservation(recs: seq<Record>, city: string, d: int, t: real)
    requires Observations(recs, city) == [Obs(d, t)]
    requires !HasDuplicateDay(recs, city)
    ensures PrepareSeries(recs, city) == Success(Daily(d, [t]))
  {
    var obs := Observations(recs, city);
    assert FirstDay(obs) == d && LastDay(obs) == d;
    assert ValueOn(obs, d) == Some(t);
    assert Reindex(obs) == [Some(t)];
    assert Interpolate([Some(t)]) == [t];
  }

  lemma RunDecides(t: Table, parseDate: string -> Option<int>, parseNumber: string -> Option<real>,
                   c: Cleaned, astana: Daily, almaty: Daily)
    requires Clean(t, parseDate, parseNumber) == Success(c)
    requires PrepareSeries(c.records, "Astana") == Success(astana)
    requires PrepareSeries(c.records, "Almaty") == Success(almaty)
    ensures Run(t, parseDate, parseNumber) == Report(c.badDates, Decide(astana, almaty))
  {
  }

  /** On the example table the impossible date is reported, the aliases
      resolve, and winter on 2024-01-10 favours the warmer Almaty. */
  lemma RunExample()
    ensures Run(ExampleTable(), ExampleDate, ExampleNumber)
      == Report(["31/02/2024"], Success(Decision(19732, -5.0, -2.0, Winter, Almaty)))
  {
    var recs := [Record(19732, "Astana", -5.0), Record(19732, "Almaty", -2.0)];
    var astana, almaty := Daily(19732, [-5.0]), Daily(19732, [-2.0]);
    ExampleClean();
    ExampleSeries(recs, "Astana", -5.0);
    ExampleSeries(recs, "Almaty", -2.0);
    RunDecides(ExampleTable(), ExampleDate, ExampleNumber, Cleaned(recs, ["31/02/2024"]), astana, almaty);
    WinterExample();
  }

}
