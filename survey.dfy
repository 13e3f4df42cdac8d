/**
 * `parse_survey` (src/processors.py:21-44): normalise the labels, require
 * `club_name`, normalise the club names, default the optional numeric
 * columns to 0, then one row per club with the means of the values that
 * parse as numbers and the number of responses.
 */
module Survey {
  import opened Wrappers
  import opened Text
  import opened Grouping
  import opened Frames

  const HeardOften: string := "heard_often"
  const ParticipationCount: string := "participation_count"
  const FeedbackText: string := "feedback_text"

  /** A row of the aggregate: `club_name`, `heard_often_mean`, `participation_mean`, `num_responses`. */
  datatype SurveyRow = SurveyRow(
    clubName: string,
    heardOftenMean: Option<real>,
    participationMean: Option<real>,
    numResponses: nat)

  /**
   * `pd.to_numeric(s, errors='coerce')` cell by cell: numbers stay, text goes
   * through the number syntax `parse`, anything else becomes NaN (None).
   */
  function ToNumber(parse: string -> Option<real>, c: Cell): Option<real> {
    match c
    case Num(x) => Some(x)
    case Str(s) => parse(s)
    case Missing => None
  }

  function Numbers(parse: string -> Option<real>, cells: seq<Cell>): seq<Option<real>> {
    seq(|cells|, i requires 0 <= i < |cells| => ToNumber(parse, cells[i]))
  }

  /**
   * The in-place steps of src/processors.py:23-36. A frame that gets through
   * them is ready for the group-by and keeps every input row.
   */
  function Prepare(t: Table): (r: Result<Table, ParseError>)
    requires Rectangular(t)
    ensures r.Success? ==> Ready(r.value) && |r.value.rows| == |t.rows|
  {
    var h := Headed(t);
    if ClubColumn !in h.columns then Failure(MissingClubColumn)
    else
      match NormalizeClubs(h)
      case Failure(e) => Failure(e)
      case Success(c) =>
        DefaultsReady(h);
        Success(Defaults(c))
  }

  /** Lines 31-36: the optional columns with their defaults. */
  function Defaults(c: Table): Table
    requires Rectangular(c)
  {
    var d1 := WithDefault(c, HeardOften, Num(0.0));
    var d2 := WithDefault(d1, ParticipationCount, Num(0.0));
    WithDefault(d2, FeedbackText, Str(""))
  }

  /** What the group-by of src/processors.py:38-42 needs of the frame. */
  predicate Ready(p: Table) {
    && Rectangular(p)
    && ClubColumn in p.columns
    && AllText(ColumnNamed(p, ClubColumn))
    && HeardOften in p.columns
    && ParticipationCount in p.columns
  }

  /**
   * `df.groupby('club_name').agg(...)`: one row per club key in ascending
   * order, with the two means and the group size.
   */
  function Aggregate(p: Table, parse: string -> Option<real>): seq<SurveyRow>
    requires Ready(p)
  {
    var names := ClubKeys(p);
    var heard := Numbers(parse, ColumnNamed(p, HeardOften));
    var part := Numbers(parse, ColumnNamed(p, ParticipationCount));
    var keys := GroupKeys(names);
    seq(|keys|, i requires 0 <= i < |keys| =>
      SurveyRow(keys[i],
                Mean(Select(heard, names, keys[i])),
                Mean(Select(part, names, keys[i])),
                Count(names, keys[i])))
  }

  /** `parse_survey` on an already-read table. */
  function SurveyOf(t: Table, parse: string -> Option<real>): Result<seq<SurveyRow>, ParseError>
    requires Rectangular(t)
  {
    match Prepare(t)
    case Failure(e) => Failure(e)
    case Success(p) => Success(Aggregate(p, parse))
  }

  lemma DefaultsReady(h: Table)
    requires Rectangular(h) && ClubColumn in h.columns && NormalizeClubs(h).Success?
    ensures Ready(Defaults(NormalizeClubs(h).value))
    ensures |Defaults(NormalizeClubs(h).value).rows| == |h.rows|
  {
    var c := NormalizeClubs(h).value;
    var cells := Column(h, IndexOf(h.columns, ClubColumn).value);
    SetColumnCells(h, ClubColumn, NormalizeCells(cells), ClubColumn);
    var d1 := WithDefault(c, HeardOften, Num(0.0));
    var d2 := WithDefault(d1, ParticipationCount, Num(0.0));
    DefaultKeepsColumn(c, HeardOften, Num(0.0), ClubColumn);
    DefaultKeepsColumn(d1, ParticipationCount, Num(0.0), ClubColumn);
    DefaultKeepsColumn(d1, ParticipationCount, Num(0.0), HeardOften);
    DefaultKeepsColumn(d2, FeedbackText, Str(""), ClubColumn);
    DefaultKeepsColumn(d2, FeedbackText, Str(""), HeardOften);
    DefaultKeepsColumn(d2, FeedbackText, Str(""), ParticipationCount);
  }

  /**
   * The steps of src/processors.py:22-44 on a frame changed in place: the
   * labels are normalised, `club_name` is required and normalised, the
   * optional columns are added, and the group-by is taken of the result.
   */
  method ParseSurvey(t: Table, parse: string -> Option<real>) returns (r: Result<seq<SurveyRow>, ParseError>)
    requires Rectangular(t)
    ensures r == SurveyOf(t, parse)
  {
    var df := new Frame(t);
    df.SetLabels(NormalizeHeaders(df.columns));
    if ClubColumn !in df.columns {
      return Failure(MissingClubColumn);
    }
    if Duplicated(df.columns, ClubColumn) {
      return Failure(ClubNameNotText);
    }
    var clubs := ColumnNamed(df.Value(), ClubColumn);
    if !AllText(clubs) {
      return Failure(ClubNameNotText);
    }
    df.Assign(ClubColumn, NormalizeCells(clubs));
    if HeardOften !in df.columns {
      df.Assign(HeardOften, Fill(df.Value(), Num(0.0)));
    }
    if ParticipationCount !in df.columns {
      df.Assign(ParticipationCount, Fill(df.Value(), Num(0.0)));
    }
    if FeedbackText !in df.columns {
      df.Assign(FeedbackText, Fill(df.Value(), Str("")));
    }
    assert df.Value() == Prepare(t).value;
    r := Success(Aggregate(df.Value(), parse));
  }

  // ---------------------------------------------------------------------
  // What the aggregate means in terms of the table as read
  // ---------------------------------------------------------------------

  /** The coerced values of column `name` for every input row; 0 on every row when the column is absent. */
  function RawNumbers(t: Table, parse: string -> Option<real>, name: string): seq<Option<real>>
    requires Rectangular(t)
  {
    if name in Headed(t).columns then Numbers(parse, ColumnNamed(Headed(t), name))
    else seq(|t.rows|, i => Some(0.0))
  }

  /** The coerced values of column `name` on the rows of one club. */
  function ClubValues(t: Table, parse: string -> Option<real>, name: string, club: string): seq<Option<real>>
    requires Parses(t)
  {
    Select(RawNumbers(t, parse, name), RawKeys(t), club)
  }

  /** The parse fails iff `club_name` is absent after normalising the labels, or a club name is not text. */
  lemma SurveyFailsIff(t: Table, parse: string -> Option<real>)
    requires Rectangular(t)
    ensures SurveyOf(t, parse) == Failure(MissingClubColumn) <==> ClubColumn !in NormalizeHeaders(t.columns)
    ensures SurveyOf(t, parse).Failure? <==> !Parses(t)
  {
  }

  /** The frame after src/processors.py:28, when the club names normalise. */
  function Clubbed(t: Table): Table
    requires Parses(t)
  {
    var h := Headed(t);
    SetColumn(h, ClubColumn, NormalizeCells(ColumnNamed(h, ClubColumn)))
  }

  lemma PrepareSteps(t: Table)
    requires Parses(t)
    ensures Prepare(t) == Success(Defaults(Clubbed(t)))
  {
  }

  /** The prepared frame holds the normalised club name of every input row. */
  lemma PreparedKeys(t: Table)
    requires Parses(t)
    ensures Prepare(t).Success? && Ready(Prepare(t).value)
    ensures ClubKeys(Prepare(t).value) == RawKeys(t)
  {
    PrepareSteps(t);
    var h := Headed(t);
    var c := Clubbed(t);
    var d1 := WithDefault(c, HeardOften, Num(0.0));
    var d2 := WithDefault(d1, ParticipationCount, Num(0.0));
    SetColumnCells(h, ClubColumn, NormalizeCells(ColumnNamed(h, ClubColumn)), ClubColumn);
    DefaultKeepsColumn(c, HeardOften, Num(0.0), ClubColumn);
    DefaultKeepsColumn(d1, ParticipationCount, Num(0.0), ClubColumn);
    DefaultKeepsColumn(d2, FeedbackText, Str(""), ClubColumn);
    assert ColumnNamed(Prepare(t).value, ClubColumn) == NormalizeCells(ColumnNamed(h, ClubColumn));
    ClubKeysNormalized(Prepare(t).value, ColumnNamed(h, ClubColumn));
  }

  /** A column other than `club_name` is the same after the club names are normalised. */
  lemma ClubbedKeeps(t: Table, name: string)
    requires Parses(t) && name != ClubColumn
    ensures name in Headed(t).columns ==>
      name in Clubbed(t).columns && ColumnNamed(Clubbed(t), name) == ColumnNamed(Headed(t), name)
    ensures name !in Headed(t).columns ==> name !in Clubbed(t).columns
    ensures |Clubbed(t).rows| == |t.rows|
  {
    var h := Headed(t);
    SetColumnCells(h, ClubColumn, NormalizeCells(ColumnNamed(h, ClubColumn)), name);
  }

  /** The cells of a numeric column of the prepared frame: the input's cells, or 0 on every row. */
  lemma PreparedCells(t: Table, name: string)
    requires Parses(t)
    requires name == HeardOften || name == ParticipationCount
    ensures Prepare(t).Success? && Ready(Prepare(t).value)
    ensures ColumnNamed(Prepare(t).value, name) ==
      if name in Headed(t).columns then ColumnNamed(Headed(t), name) else Fill(t, Num(0.0))
  {
    PrepareSteps(t);
    ClubbedKeeps(t, name);
    DefaultsNumeric(Clubbed(t), name);
    assert Fill(Clubbed(t), Num(0.0)) == Fill(t, Num(0.0));
  }

  lemma DefaultsNumeric(c: Table, name: string)
    requires Rectangular(c)
    requires name == HeardOften || name == ParticipationCount
    ensures name in Defaults(c).columns
    ensures ColumnNamed(Defaults(c), name) == if name in c.columns then ColumnNamed(c, name) else Fill(c, Num(0.0))
  {
    var d1 := WithDefault(c, HeardOften, Num(0.0));
    var d2 := WithDefault(d1, ParticipationCount, Num(0.0));
    if name == HeardOften {
      DefaultColumn(c, HeardOften, Num(0.0));
      DefaultKeepsColumn(d1, ParticipationCount, Num(0.0), HeardOften);
    } else {
      if name in c.columns {
        DefaultKeepsColumn(c, HeardOften, Num(0.0), name);
      }
      DefaultColumn(d1, ParticipationCount, Num(0.0));
      assert Fill(d1, Num(0.0)) == Fill(c, Num(0.0));
    }
    DefaultKeepsColumn(d2, FeedbackText, Str(""), name);
  }

  /** A numeric column of the prepared frame, coerced: the input's values, or 0 on every row. */
  lemma PreparedNumbers(t: Table, parse: string -> Option<real>, name: string)
    requires Parses(t)
    requires name == HeardOften || name == ParticipationCount
    ensures Prepare(t).Success? && Ready(Prepare(t).value)
    ensures Numbers(parse, ColumnNamed(Prepare(t).value, name)) == RawNumbers(t, parse, name)
  {
    PreparedCells(t, name);
    if name !in Headed(t).columns {
      ZeroNumbers(parse, t);
    }
  }

  lemma ZeroNumbers(parse: string -> Option<real>, t: Table)
    ensures Numbers(parse, Fill(t, Num(0.0))) == seq(|t.rows|, i => Some(0.0))
  {
  }

  /** The sum of `num_responses` over the aggregate. */
  function TotalResponses(rows: seq<SurveyRow>): nat {
    if rows == [] then 0 else TotalResponses(rows[..|rows| - 1]) + rows[|rows| - 1].numResponses
  }

  lemma {:induction false} TotalIsSumCounts(rows: seq<SurveyRow>, keys: seq<string>, names: seq<string>)
    requires |rows| == |keys|
    requires forall i :: 0 <= i < |rows| ==> rows[i].numResponses == Count(names, keys[i])
    ensures TotalResponses(rows) == SumCounts(keys, names)
    decreases |rows|
  {
    if rows != [] {
      var n := |rows| - 1;
      TotalIsSumCounts(rows[..n], keys[..n], names);
    }
  }

  /**
   * The survey aggregate read straight off the input rows: per distinct
   * normalised club, in ascending order, the means of its coerced values
   * and its number of rows.
   */
  function ByClub(t: Table, parse: string -> Option<real>): seq<SurveyRow>
    requires Parses(t)
  {
    var keys := GroupKeys(RawKeys(t));
    seq(|keys|, i requires 0 <= i < |keys| =>
      SurveyRow(keys[i],
                Mean(ClubValues(t, parse, HeardOften, keys[i])),
                Mean(ClubValues(t, parse, ParticipationCount, keys[i])),
                Count(RawKeys(t), keys[i])))
  }

  /** The in-place steps and the group-by compute exactly the aggregate read off the input. */
  lemma SurveyIsByClub(t: Table, parse: string -> Option<real>)
    requires Parses(t)
    ensures SurveyOf(t, parse) == Success(ByClub(t, parse))
  {
    PreparedKeys(t);
    PreparedNumbers(t, parse, HeardOften);
    PreparedNumbers(t, parse, ParticipationCount);
    AggregateIsByClub(t, parse, Prepare(t).value);
  }

  lemma AggregateIsByClub(t: Table, parse: string -> Option<real>, p: Table)
    requires Parses(t) && Ready(p)
    requires ClubKeys(p) == RawKeys(t)
    requires Numbers(parse, ColumnNamed(p, HeardOften)) == RawNumbers(t, parse, HeardOften)
    requires Numbers(parse, ColumnNamed(p, ParticipationCount)) == RawNumbers(t, parse, ParticipationCount)
    ensures Aggregate(p, parse) == ByClub(t, parse)
  {
  }

  /** The `club_name` column of the aggregate. */
  function ClubNames(rows: seq<SurveyRow>): seq<string> {
    seq(|rows|, i requires 0 <= i < |rows| => rows[i].clubName)
  }

  /** The aggregate has one row per distinct normalised club name, in ascending order. */
  lemma SurveyKeys(t: Table, parse: string -> Option<real>)
    requires Parses(t)
    ensures Ascending(ClubNames(ByClub(t, parse)))
    ensures forall x :: x in ClubNames(ByClub(t, parse)) <==> x in RawKeys(t)
  {
    assert ClubNames(ByClub(t, parse)) == GroupKeys(RawKeys(t));
  }

  /**
   * Every club in the aggregate has at least one response, and the
   * responses of all clubs add up to the number of input rows.
   */
  lemma SurveyCounts(t: Table, parse: string -> Option<real>)
    requires Parses(t)
    ensures forall i :: 0 <= i < |ByClub(t, parse)| ==> ByClub(t, parse)[i].numResponses > 0
    ensures TotalResponses(ByClub(t, parse)) == |t.rows|
  {
    var rows := ByClub(t, parse);
    var names := RawKeys(t);
    var keys := GroupKeys(names);
    forall i | 0 <= i < |rows|
      ensures rows[i].numResponses > 0
    {
      assert keys[i] in keys;
      CountPositive(names, keys[i]);
    }
    TotalIsSumCounts(rows, keys, names);
    GroupSizesSum(names);
  }

  /** Without a numeric column every club's mean of it is 0, never undefined. */
  lemma AbsentColumnMeanIsZero(t: Table, parse: string -> Option<real>, name: string, club: string)
    requires Parses(t)
    requires name == HeardOften || name == ParticipationCount
    requires name !in NormalizeHeaders(t.columns)
    requires club in RawKeys(t)
    ensures Mean(ClubValues(t, parse, name, club)) == Some(0.0)
  {
    var vals := RawNumbers(t, parse, name);
    assert |vals| == |RawKeys(t)|;
    assert forall i :: 0 <= i < |vals| ==> vals[i] == Some(0.0);
    MeanOfSelectConstant(vals, RawKeys(t), club, 0.0);
  }

  /** A club's mean is undefined (NaN) exactly when none of its values parse as a number. */
  lemma MeanUndefinedIff(t: Table, parse: string -> Option<real>, name: string, club: string)
    requires Parses(t)
    ensures Mean(ClubValues(t, parse, name, club)).None? <==>
      forall k :: 0 <= k < |ClubValues(t, parse, name, club)| ==> ClubValues(t, parse, name, club)[k].None?
  {
    MeanNoneIff(ClubValues(t, parse, name, club));
  }
}
