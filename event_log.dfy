/**
 * `parse_event_log` (src/processors.py:88-109): normalise the labels,
 * require `club_name`, add the optional title and description columns,
 * normalise the club names, then one row per club counting its titles that
 * are not missing. The changed frame is returned beside the aggregate.
 */
module EventLog {
  import opened Wrappers
  import opened Text
  import opened Grouping
  import opened Frames

  const EventTitle: string := "event_title"
  const EventDescription: string := "event_description"

  /** A row of the aggregate: `club_name`, `event_count`. */
  datatype EventRow = EventRow(clubName: string, eventCount: nat)

  /** pandas `count`: the number of cells that are not missing. */
  function Present(cells: seq<Cell>): nat {
    if cells == [] then 0
    else Present(cells[..|cells| - 1]) + (if cells[|cells| - 1].Missing? then 0 else 1)
  }

  /** Lines 98-101: the optional columns, each defaulting to the empty text. */
  function EventDefaults(h: Table): Table
    requires Rectangular(h)
  {
    WithDefault(WithDefault(h, EventTitle, Str("")), EventDescription, Str(""))
  }

  /** What the group-by of src/processors.py:105-107 needs of the frame. */
  predicate EventsReady(p: Table) {
    && Rectangular(p)
    && ClubColumn in p.columns
    && AllText(ColumnNamed(p, ClubColumn))
    && EventTitle in p.columns
  }

  /**
   * The in-place steps of src/processors.py:94-103. Unlike the survey, the
   * defaults are added before the club names are normalised.
   */
  function PrepareEvents(t: Table): (r: Result<Table, ParseError>)
    requires Rectangular(t)
    ensures r.Success? ==> EventsReady(r.value) && |r.value.rows| == |t.rows|
  {
    var h := Headed(t);
    if ClubColumn !in h.columns then Failure(MissingClubColumn)
    else
      var d := EventDefaults(h);
      EventDefaultsKeep(h);
      match NormalizeClubs(d)
      case Failure(e) => Failure(e)
      case Success(p) =>
        NormalizedReady(d);
        Success(p)
  }

  lemma EventDefaultsKeep(h: Table)
    requires Rectangular(h) && ClubColumn in h.columns
    ensures Rectangular(EventDefaults(h)) && |EventDefaults(h).rows| == |h.rows|
    ensures ClubColumn in EventDefaults(h).columns && EventTitle in EventDefaults(h).columns
    ensures ColumnNamed(EventDefaults(h), ClubColumn) == ColumnNamed(h, ClubColumn)
    ensures Duplicated(EventDefaults(h).columns, ClubColumn) <==> Duplicated(h.columns, ClubColumn)
    ensures ColumnNamed(EventDefaults(h), EventTitle) ==
      if EventTitle in h.columns then ColumnNamed(h, EventTitle) else Fill(h, Str(""))
  {
    var d1 := WithDefault(h, EventTitle, Str(""));
    DefaultKeepsColumn(h, EventTitle, Str(""), ClubColumn);
    DefaultKeepsColumn(d1, EventDescription, Str(""), ClubColumn);
    DefaultKeepsDuplicated(h, EventTitle, Str(""), ClubColumn);
    DefaultKeepsDuplicated(d1, EventDescription, Str(""), ClubColumn);
    DefaultColumn(h, EventTitle, Str(""));
    DefaultKeepsColumn(d1, EventDescription, Str(""), EventTitle);
  }

  lemma NormalizedReady(d: Table)
    requires Rectangular(d) && ClubColumn in d.columns && EventTitle in d.columns
    requires NormalizeClubs(d).Success?
    ensures EventsReady(NormalizeClubs(d).value)
    ensures |NormalizeClubs(d).value.rows| == |d.rows|
    ensures ColumnNamed(NormalizeClubs(d).value, ClubColumn) == NormalizeCells(ColumnNamed(d, ClubColumn))
    ensures ColumnNamed(NormalizeClubs(d).value, EventTitle) == ColumnNamed(d, EventTitle)
  {
    var cells := ColumnNamed(d, ClubColumn);
    SetColumnCells(d, ClubColumn, NormalizeCells(cells), ClubColumn);
    SetColumnCells(d, ClubColumn, NormalizeCells(cells), EventTitle);
  }

  /** `df.groupby('club_name').agg(event_count=('event_title', 'count'))`. */
  function AggregateEvents(p: Table): seq<EventRow>
    requires EventsReady(p)
  {
    var names := ClubKeys(p);
    var titles := ColumnNamed(p, EventTitle);
    var keys := GroupKeys(names);
    seq(|keys|, i requires 0 <= i < |keys| =>
      EventRow(keys[i], Present(Select(titles, names, keys[i]))))
  }

  /** `parse_event_log` on an already-read table: the changed frame and the aggregate. */
  function EventLogOf(t: Table): Result<(Table, seq<EventRow>), ParseError>
    requires Rectangular(t)
  {
    match PrepareEvents(t)
    case Failure(e) => Failure(e)
    case Success(p) => Success((p, AggregateEvents(p)))
  }

  /**
   * The steps of src/processors.py:94-109 on a frame changed in place; the
   * value of that frame is returned beside the aggregate.
   */
  method ParseEventLog(t: Table) returns (r: Result<(Table, seq<EventRow>), ParseError>)
    requires Rectangular(t)
    ensures r == EventLogOf(t)
  {
    var df := new Frame(t);
    df.SetLabels(NormalizeHeaders(df.columns));
    ghost var h := df.Value();
    assert h == Headed(t);
    if ClubColumn !in df.columns {
      return Failure(MissingClubColumn);
    }
    AddDefaults(df);
    ghost var d := df.Value();
    EventDefaultsKeep(h);
    assert PrepareEvents(t) == NormalizeClubs(d);
    if Duplicated(df.columns, ClubColumn) {
      return Failure(ClubNameNotText);
    }
    var clubs := ColumnNamed(df.Value(), ClubColumn);
    if !AllText(clubs) {
      return Failure(ClubNameNotText);
    }
    df.Assign(ClubColumn, NormalizeCells(clubs));
    r := Success((df.Value(), AggregateEvents(df.Value())));
  }

  /** Lines 98-101 on the frame itself. */
  method AddDefaults(df: Frame)
    requires Rectangular(df.Value())
    modifies df
    ensures df.Value() == EventDefaults(old(df.Value()))
  {
    if EventTitle !in df.columns {
      df.Assign(EventTitle, Fill(df.Value(), Str("")));
    }
    if EventDescription !in df.columns {
      df.Assign(EventDescription, Fill(df.Value(), Str("")));
    }
  }

  // ---------------------------------------------------------------------
  // What the aggregate means in terms of the table as read
  // ---------------------------------------------------------------------

  /** The title cell of every input row; the empty text on every row when the column is absent. */
  function RawTitles(t: Table): seq<Cell>
    requires Rectangular(t)
  {
    if EventTitle in Headed(t).columns then ColumnNamed(Headed(t), EventTitle)
    else Fill(t, Str(""))
  }

  /** The title cells on the rows of one club. */
  function ClubTitles(t: Table, club: string): seq<Cell>
    requires Parses(t)
  {
    Select(RawTitles(t), RawKeys(t), club)
  }

  /** The event log aggregate read straight off the input rows. */
  function EventsByClub(t: Table): seq<EventRow>
    requires Parses(t)
  {
    var keys := GroupKeys(RawKeys(t));
    seq(|keys|, i requires 0 <= i < |keys| => EventRow(keys[i], Present(ClubTitles(t, keys[i]))))
  }

  /** The parse fails iff `club_name` is absent after normalising the labels, or a club name is not text. */
  lemma EventLogFailsIff(t: Table)
    requires Rectangular(t)
    ensures EventLogOf(t) == Failure(MissingClubColumn) <==> ClubColumn !in NormalizeHeaders(t.columns)
    ensures EventLogOf(t).Failure? <==> !Parses(t)
  {
    if ClubColumn in Headed(t).columns {
      EventDefaultsKeep(Headed(t));
    }
  }

  /** The prepared frame: normalised club names, the input's titles, and every input row. */
  lemma PreparedEvents(t: Table)
    requires Parses(t)
    ensures PrepareEvents(t).Success?
    ensures |PrepareEvents(t).value.rows| == |t.rows|
    ensures ClubKeys(PrepareEvents(t).value) == RawKeys(t)
    ensures ColumnNamed(PrepareEvents(t).value, EventTitle) == RawTitles(t)
  {
    var h := Headed(t);
    EventDefaultsKeep(h);
    var d := EventDefaults(h);
    assert PrepareEvents(t) == NormalizeClubs(d);
    NormalizedReady(d);
    ClubKeysNormalized(PrepareEvents(t).value, ColumnNamed(h, ClubColumn));
  }

  lemma AggregateIsEventsByClub(t: Table, p: Table)
    requires Parses(t) && EventsReady(p)
    requires ClubKeys(p) == RawKeys(t)
    requires ColumnNamed(p, EventTitle) == RawTitles(t)
    ensures AggregateEvents(p) == EventsByClub(t)
  {
  }

  /** The in-place steps and the group-by compute exactly the aggregate read off the input. */
  lemma EventLogIsByClub(t: Table)
    requires Parses(t)
    ensures EventLogOf(t).Success?
    ensures EventLogOf(t).value.1 == EventsByClub(t)
  {
    PreparedEvents(t);
    AggregateIsEventsByClub(t, PrepareEvents(t).value);
  }

  lemma {:induction false} PresentAtMost(cells: seq<Cell>)
    ensures Present(cells) <= |cells|
    ensures Present(cells) == |cells| <==> forall i :: 0 <= i < |cells| ==> !cells[i].Missing?
    decreases |cells|
  {
    if cells != [] {
      var n := |cells| - 1;
      PresentAtMost(cells[..n]);
      assert forall i :: 0 <= i < n ==> cells[..n][i] == cells[i];
    }
  }

  /** The `club_name` column of the aggregate. */
  function ClubNames(rows: seq<EventRow>): seq<string> {
    seq(|rows|, i requires 0 <= i < |rows| => rows[i].clubName)
  }

  /** The aggregate has one row per distinct normalised club name, in ascending order. */
  lemma EventKeys(t: Table)
    requires Parses(t)
    ensures Ascending(ClubNames(EventsByClub(t)))
    ensures forall x :: x in ClubNames(EventsByClub(t)) <==> x in RawKeys(t)
  {
    assert ClubNames(EventsByClub(t)) == GroupKeys(RawKeys(t));
  }

  /**
   * A club's title count is at most its number of rows, and equals it
   * exactly when none of its titles is missing.
   */
  lemma ClubCountBounds(t: Table, club: string)
    requires Parses(t)
    ensures Present(ClubTitles(t, club)) <= Count(RawKeys(t), club)
    ensures Present(ClubTitles(t, club)) == Count(RawKeys(t), club) <==>
      forall k :: 0 <= k < |ClubTitles(t, club)| ==> !ClubTitles(t, club)[k].Missing?
  {
    SelectLength(RawTitles(t), RawKeys(t), club);
    PresentAtMost(ClubTitles(t, club));
  }

  /** Without an `event_title` column every row of a club is counted. */
  lemma AbsentTitlesCountRows(t: Table, club: string)
    requires Parses(t)
    requires EventTitle !in NormalizeHeaders(t.columns)
    ensures Present(ClubTitles(t, club)) == Count(RawKeys(t), club)
  {
    assert forall i :: 0 <= i < |RawTitles(t)| ==> RawTitles(t)[i] == Str("");
    SelectConstant(RawTitles(t), RawKeys(t), club, Str(""));
    ClubCountBounds(t, club);
  }

  /** The returned frame keeps every input row, with its club names normalised. */
  lemma EventFrameKeepsRows(t: Table)
    requires Parses(t)
    ensures EventLogOf(t).Success?
    ensures |EventLogOf(t).value.0.rows| == |t.rows|
    ensures ClubKeys(EventLogOf(t).value.0) == RawKeys(t)
  {
    PreparedEvents(t);
  }
}
