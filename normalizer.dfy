/** The row normaliser: the statements that turn the raw `date`, `city`,
    `temperature` table into typed records (main.py lines 20-44). */
module Normalizer {
  import opened Wrappers
  import opened Errors
  import opened Seqs
  import opened Text

  /** The columns the table must have. */
  const RequiredColumns: set<string> := {"date", "city", "temperature"}

  /** Date texts meaning "no data"; a missing date counts as one too. */
  const BadTokens: set<string> := {"", "...", "—", "-", "NaN", "nan"}

  /** How many unparseable date texts the diagnostic shows. */
  const ShownBadDates: nat := 10

  const AstanaAliases: set<string> := {"Астана", "Нур-Султан"}
  const AlmatyAliases: set<string> := {"Алматы", "Алма-Ата"}

  /** One row as read from the table; `None` is a missing cell. The
      temperature is kept as the cell's text. */
  datatype RawRow = RawRow(date: Option<string>, city: Option<string>, temperature: Option<string>)

  datatype Table = Table(columns: set<string>, rows: seq<RawRow>)

  /** A row whose date text has been parsed into a day ordinal. */
  datatype DatedRow = DatedRow(day: int, city: Option<string>, temperature: Option<string>)

  /** A cleaned observation: day ordinal, canonical city, temperature. */
  datatype Record = Record(day: int, city: string, temperature: real)

  /** The cleaned records, and the date texts the diagnostic prints. */
  datatype Cleaned = Cleaned(records: seq<Record>, badDates: seq<string>)

  /** The city-name replacement table, applied to whole names. */
  function CanonicalCity(name: string): string
  {
    if name in AstanaAliases then "Astana"
    else if name in AlmatyAliases then "Almaty"
    else name
  }

  /** Which names end up as each canonical city; every alias is resolved and
      no other name is changed. */
  lemma CanonicalCityResolves(name: string)
    ensures CanonicalCity(name) == "Astana" <==> name == "Astana" || name in AstanaAliases
    ensures CanonicalCity(name) == "Almaty" <==> name == "Almaty" || name in AlmatyAliases
    ensures CanonicalCity(name) !in AstanaAliases + AlmatyAliases
    ensures CanonicalCity(name) != name ==> name in AstanaAliases + AlmatyAliases
  {
  }

  /** Lines 24-25: strip the date and city texts. */
  function StripRow(row: RawRow): RawRow
  {
    row.(date := row.date.Map(Trim), city := row.city.Map(Trim))
  }


  predicate IsSentinel(date: Option<string>)
  {
    date.None? || date.value in BadTokens
  }

  /** Line 28: keep the rows whose date is not a sentinel. */
  function KeepDated(row: RawRow): Option<RawRow>
  {
    if IsSentinel(row.date) then None else Some(row)
  }

  /** Lines 30 and 38: the row with its date parsed, if it parses. */
  function ParsedRow(parseDate: string -> Option<int>, row: RawRow): Option<DatedRow>
  {
    if row.date.None? then None
    else match parseDate(row.date.value)
      case None => None
      case Some(day) => Some(DatedRow(day, row.city, row.temperature))
  }

  function ParseRowDate(parseDate: string -> Option<int>): RawRow -> Option<DatedRow>
  {
    row => ParsedRow(parseDate, row)
  }

  /** Lines 31-34: the date text of a row whose date does not parse. */
  function BadDateText(parseDate: string -> Option<int>, row: RawRow): Option<string>
  {
    if row.date.Some? && parseDate(row.date.value).None? then Some(row.date.value) else None
  }

  function BadDate(parseDate: string -> Option<int>): RawRow -> Option<string>
  {
    row => BadDateText(parseDate, row)
  }

  /** Lines 39-40: the record of a row whose city is present and whose
      temperature is numeric. */
  function CompleteRecord(parseNumber: string -> Option<real>, row: DatedRow): Option<Record>
  {
    if row.city.None? || row.temperature.None? then None
    else match parseNumber(row.temperature.value)
      case None => None
      case Some(t) => Some(Record(row.day, row.city.value, t))
  }

  function Complete(parseNumber: string -> Option<real>): DatedRow -> Option<Record>
  {
    row => CompleteRecord(parseNumber, row)
  }

  /** Lines 42-44: strip the city again, then replace aliases. */
  function Alias(rec: Record): Record
  {
    rec.(city := CanonicalCity(Trim(rec.city)))
  }


  /** The normaliser as the script runs it, statement by statement; a missing
      column is the only error. */
  function Clean(t: Table, parseDate: string -> Option<int>, parseNumber: string -> Option<real>)
    : (r: Result<Cleaned, Error>)
    ensures r.Failure? <==> !(RequiredColumns <= t.columns)
    ensures r.Failure? ==> r.error == MissingColumns(t.columns)
  {
    if !(RequiredColumns <= t.columns) then Failure(MissingColumns(t.columns))
    else
      var kept := FilterMap(KeepDated, Map(StripRow, t.rows));
      var bad := FilterMap(BadDate(parseDate), kept);
      var dated := FilterMap(ParseRowDate(parseDate), kept);
      var complete := FilterMap(Complete(parseNumber), dated);
      Success(Cleaned(Map(Alias, complete), Take(bad, ShownBadDates)))
  }

  // The fate of one raw row, decided on that row alone.

  /** The date cell of a row after the strip of line 24. */
  function StrippedDate(row: RawRow): Option<string>
  {
    StripRow(row).date
  }

  /** The row's date is neither missing nor a sentinel, yet does not parse. */
  predicate IsBadDateRow(parseDate: string -> Option<int>, row: RawRow)
  {
    !IsSentinel(StrippedDate(row)) && parseDate(StrippedDate(row).value).None?
  }

  /** The row reaches the output as `rec`: its trimmed date is no sentinel
      and parses to `rec.day`, its city is present and resolves to
      `rec.city`, and its temperature converts to `rec.temperature`. */
  predicate Survives(parseDate: string -> Option<int>, parseNumber: string -> Option<real>, row: RawRow, rec: Record)
  {
    && row.date.Some? && Trim(row.date.value) !in BadTokens
    && parseDate(Trim(row.date.value)) == Some(rec.day)
    && row.city.Some? && rec.city == CanonicalCity(Trim(row.city.value))
    && row.temperature.Some? && parseNumber(row.temperature.value) == Some(rec.temperature)
  }

  function RowRecord(parseDate: string -> Option<int>, parseNumber: string -> Option<real>, row: RawRow): Option<Record>
  {
    var date := StrippedDate(row);
    if IsSentinel(date) || row.city.None? || row.temperature.None? then None
    else match (parseDate(date.value), parseNumber(row.temperature.value))
      case (Some(day), Some(t)) => Some(Record(day, CanonicalCity(Trim(row.city.value)), t))
      case _ => None
  }

  function RowBadDate(parseDate: string -> Option<int>, row: RawRow): Option<string>
  {
    if IsBadDateRow(parseDate, row) then StrippedDate(row) else None
  }

  function RowStep(parseDate: string -> Option<int>, parseNumber: string -> Option<real>): RawRow -> Option<Record>
  {
    row => RowRecord(parseDate, parseNumber, row)
  }

  function RowBad(parseDate: string -> Option<int>): RawRow -> Option<string>
  {
    row => RowBadDate(parseDate, row)
  }

  lemma RowRecordSurvives(parseDate: string -> Option<int>, parseNumber: string -> Option<real>, row: RawRow, rec: Record)
    ensures RowRecord(parseDate, parseNumber, row) == Some(rec) <==> Survives(parseDate, parseNumber, row, rec)
  {
  }

  function KeepStep(): RawRow -> Option<RawRow>
  {
    row => KeepDated(StripRow(row))
  }

  function DatedStep(parseDate: string -> Option<int>): RawRow -> Option<DatedRow>
  {
    row => if IsSentinel(StrippedDate(row)) then None else ParsedRow(parseDate, StripRow(row))
  }

  function CompleteStep(parseDate: string -> Option<int>, parseNumber: string -> Option<real>): RawRow -> Option<Record>
  {
    row => match DatedStep(parseDate)(row) case None => None case Some(d) => CompleteRecord(parseNumber, d)
  }

  lemma BadIsRowWise(rows: seq<RawRow>, parseDate: string -> Option<int>)
    ensures FilterMap(BadDate(parseDate), FilterMap(KeepStep(), rows)) == FilterMap(RowBad(parseDate), rows)
  {
    FilterMapFuse(KeepStep(), BadDate(parseDate), RowBad(parseDate), rows);
  }

  /** One row's record is that of the parse stages with the alias replaced;
      stripping the city a second time changes nothing. */
  lemma RowStepAliased(parseDate: string -> Option<int>, parseNumber: string -> Option<real>, row: RawRow)
    ensures RowStep(parseDate, parseNumber)(row) == CompleteStep(parseDate, parseNumber)(row).Map(Alias)
  {
    var date := StrippedDate(row);
    if IsSentinel(date) {
      assert DatedStep(parseDate)(row) == None;
    } else {
      assert DatedStep(parseDate)(row) == ParsedRow(parseDate, StripRow(row));
      if row.city.Some? {
        TrimIdempotent(row.city.value);
      }
    }
  }

  lemma RecordsAreRowWise(rows: seq<RawRow>, parseDate: string -> Option<int>, parseNumber: string -> Option<real>)
    ensures Map(Alias, FilterMap(Complete(parseNumber), FilterMap(ParseRowDate(parseDate), FilterMap(KeepStep(), rows))))
         == FilterMap(RowStep(parseDate, parseNumber), rows)
  {
    FilterMapFuse(KeepStep(), ParseRowDate(parseDate), DatedStep(parseDate), rows);
    FilterMapFuse(DatedStep(parseDate), Complete(parseNumber), CompleteStep(parseDate, parseNumber), rows);
    forall row: RawRow
      ensures RowStep(parseDate, parseNumber)(row) == CompleteStep(parseDate, parseNumber)(row).Map(Alias)
    {
      RowStepAliased(parseDate, parseNumber, row);
    }
    MapAfterFilterMap(CompleteStep(parseDate, parseNumber), Alias, RowStep(parseDate, parseNumber), rows);
  }

  /** The statement-by-statement normaliser keeps, in order, the record of
      every row that survives on its own, and reports, in order, the first
      ten bad date texts; the second strip of the city (line 42) changes
      nothing. */
  lemma CleanIsRowWise(t: Table, parseDate: string -> Option<int>, parseNumber: string -> Option<real>)
    requires RequiredColumns <= t.columns
    ensures Clean(t, parseDate, parseNumber) == Success(Cleaned(
      FilterMap(RowStep(parseDate, parseNumber), t.rows),
      Take(FilterMap(RowBad(parseDate), t.rows), ShownBadDates)))
  {
    FilterMapAfterMap(StripRow, KeepDated, KeepStep(), t.rows);
    BadIsRowWise(t.rows, parseDate);
    RecordsAreRowWise(t.rows, parseDate, parseNumber);
  }

  /** A record is in the output exactly when some input row survives as it. */
  lemma SurvivingRecord(t: Table, parseDate: string -> Option<int>, parseNumber: string -> Option<real>, c: Cleaned, rec: Record)
    requires Clean(t, parseDate, parseNumber) == Success(c)
    ensures |c.records| <= |t.rows|
    ensures rec in c.records <==> exists i :: 0 <= i < |t.rows| && Survives(parseDate, parseNumber, t.rows[i], rec)
  {
    CleanIsRowWise(t, parseDate, parseNumber);
    FilterMapMember(RowStep(parseDate, parseNumber), t.rows, rec);
    forall i | 0 <= i < |t.rows|
      ensures RowStep(parseDate, parseNumber)(t.rows[i]) == Some(rec) <==> Survives(parseDate, parseNumber, t.rows[i], rec)
    {
      RowRecordSurvives(parseDate, parseNumber, t.rows[i], rec);
    }
  }

  /** Every output city is canonical: no alias is left unresolved. */
  lemma CleanCitiesCanonical(t: Table, parseDate: string -> Option<int>, parseNumber: string -> Option<real>, c: Cleaned)
    requires Clean(t, parseDate, parseNumber) == Success(c)
    ensures forall rec :: rec in c.records ==> rec.city !in AstanaAliases + AlmatyAliases
  {
    forall rec | rec in c.records
      ensures rec.city !in AstanaAliases + AlmatyAliases
    {
      SurvivingRecord(t, parseDate, parseNumber, c, rec);
      var i :| 0 <= i < |t.rows| && Survives(parseDate, parseNumber, t.rows[i], rec);
      CanonicalCityResolves(Trim(t.rows[i].city.value));
    }
  }

  /** The diagnostic shows at most ten texts; it is empty exactly when no row
      has a bad date; each text shown is the trimmed date of some row, is no
      sentinel, and does not parse. */
  lemma BadDateDiagnostic(t: Table, parseDate: string -> Option<int>, parseNumber: string -> Option<real>, c: Cleaned)
    requires Clean(t, parseDate, parseNumber) == Success(c)
    ensures |c.badDates| <= ShownBadDates
    ensures c.badDates == [] <==> forall i :: 0 <= i < |t.rows| ==> !IsBadDateRow(parseDate, t.rows[i])
    ensures forall s :: s in c.badDates ==>
      && s !in BadTokens && parseDate(s).None?
      && exists i :: 0 <= i < |t.rows| && StrippedDate(t.rows[i]) == Some(s)
  {
    CleanIsRowWise(t, parseDate, parseNumber);
    var all := FilterMap(RowBad(parseDate), t.rows);
    if exists i :: 0 <= i < |t.rows| && IsBadDateRow(parseDate, t.rows[i]) {
      var i :| 0 <= i < |t.rows| && IsBadDateRow(parseDate, t.rows[i]);
      FilterMapMember(RowBad(parseDate), t.rows, StrippedDate(t.rows[i]).value);
      assert all != [];
    } else if all != [] {
      FilterMapMember(RowBad(parseDate), t.rows, all[0]);
    }
    forall s | s in c.badDates
      ensures s !in BadTokens && parseDate(s).None?
      ensures exists i :: 0 <= i < |t.rows| && StrippedDate(t.rows[i]) == Some(s)
    {
      assert s in all;
      FilterMapMember(RowBad(parseDate), t.rows, s);
    }
  }

  /** Lines 24-25, overwriting the date and city columns row by row. */
  method StripColumns(rows: seq<RawRow>) returns (r: seq<RawRow>)
    ensures r == Map(StripRow, rows)
  {
    r := rows;
    for i := 0 to |r|
      invariant |r| == |rows|
      invariant forall k :: 0 <= k < i ==> r[k] == StripRow(rows[k])
      invariant forall k :: i <= k < |r| ==> r[k] == rows[k]
    {
      r := r[i := StripRow(r[i])];
    }
  }

  /** Line 28, dropping the rows with a sentinel date. */
  method DropSentinels(rows: seq<RawRow>) returns (kept: seq<RawRow>)
    ensures kept == FilterMap(KeepDated, rows)
  {
    kept := [];
    for i := 0 to |rows|
      invariant kept == FilterMap(KeepDated, rows[..i])
    {
      FilterMapSnoc(KeepDated, rows[..i], rows[i]);
      assert rows[..i + 1] == rows[..i] + [rows[i]];
      if !IsSentinel(rows[i].date) {
        kept := kept + [rows[i]];
      }
    }
    assert rows[..|rows|] == rows;
  }

  /** Lines 30-38: parse every date, collect the texts that do not parse and
      keep the rows that do. */
  method ParseDates(rows: seq<RawRow>, parseDate: string -> Option<int>)
    returns (dated: seq<DatedRow>, bad: seq<string>)
    ensures dated == FilterMap(ParseRowDate(parseDate), rows)
    ensures bad == FilterMap(BadDate(parseDate), rows)
  {
    dated, bad := [], [];
    for i := 0 to |rows|
      invariant dated == FilterMap(ParseRowDate(parseDate), rows[..i])
      invariant bad == FilterMap(BadDate(parseDate), rows[..i])
    {
      FilterMapSnoc(BadDate(parseDate), rows[..i], rows[i]);
      FilterMapSnoc(ParseRowDate(parseDate), rows[..i], rows[i]);
      assert rows[..i + 1] == rows[..i] + [rows[i]];
      var row := rows[i];
      if row.date.Some? {
        match parseDate(row.date.value)
        case None =>
          bad := bad + [row.date.value];
        case Some(day) =>
          dated := dated + [DatedRow(day, row.city, row.temperature)];
      }
    }
    assert rows[..|rows|] == rows;
  }

  /** Lines 39-40: convert the temperatures and drop incomplete rows. */
  method DropIncomplete(rows: seq<DatedRow>, parseNumber: string -> Option<real>)
    returns (recs: seq<Record>)
    ensures recs == FilterMap(Complete(parseNumber), rows)
  {
    recs := [];
    for i := 0 to |rows|
      invariant recs == FilterMap(Complete(parseNumber), rows[..i])
    {
      FilterMapSnoc(Complete(parseNumber), rows[..i], rows[i]);
      assert rows[..i + 1] == rows[..i] + [rows[i]];
      var row := rows[i];
      if row.city.Some? && row.temperature.Some? {
        var t := parseNumber(row.temperature.value);
        if t.Some? {
          recs := recs + [Record(row.day, row.city.value, t.value)];
        }
      }
    }
    assert rows[..|rows|] == rows;
  }

  /** Lines 42-44, overwriting the city column row by row. */
  method ReplaceAliases(recs: seq<Record>) returns (r: seq<Record>)
    ensures r == Map(Alias, recs)
  {
    r := recs;
    for i := 0 to |r|
      invariant |r| == |recs|
      invariant forall k :: 0 <= k < i ==> r[k] == Alias(recs[k])
      invariant forall k :: i <= k < |r| ==> r[k] == recs[k]
    {
      r := r[i := Alias(r[i])];
    }
    assert forall k :: 0 <= k < |r| ==> r[k] == Map(Alias, recs)[k];
  }

  /** The normaliser as the script runs it: each statement in turn replaces
      the table held in a variable. */
  method Normalize(t: Table, parseDate: string -> Option<int>, parseNumber: string -> Option<real>)
    returns (r: Result<Cleaned, Error>)
    ensures r == Clean(t, parseDate, parseNumber)
  {
    if !(RequiredColumns <= t.columns) {
      return Failure(MissingColumns(t.columns));
    }
    var rows := StripColumns(t.rows);
    rows := DropSentinels(rows);
    var dated, bad := ParseDates(rows, parseDate);
    var recs := DropIncomplete(dated, parseNumber);
    recs := ReplaceAliases(recs);
    r := Success(Cleaned(recs, Take(bad, ShownBadDates)));
  }
}
