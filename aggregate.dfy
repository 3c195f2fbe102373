/** The collapse of the reconciled rows of one plate into one summary row
    (`groupby(plate column).agg(...)` and the rename after it), and the
    state-count table derived from that row. */
module Aggregate {
  import opened Wrappers
  import opened Text
  import opened Coverage

  /** The string columns the aggregation reads. */
  datatype Field =
    | AgencyState | StateGoogle | AgencyName | LifecycleState
    | Abbreviation | AccountsInLpManagement | RecommendedAccount

  function Value(x: RawRow, f: Field): string {
    match f
    case AgencyState => x.agencyState
    case StateGoogle => x.stateGoogle
    case AgencyName => x.agencyName
    case LifecycleState => x.lifecycleState
    case Abbreviation => x.abbreviation
    case AccountsInLpManagement => x.accountsInLpManagement
    case RecommendedAccount => x.recommendedAccount
  }

  /** The two 0/1 flag columns. */
  datatype Flag = ExistsInAap | WasInAap

  function FlagValue(x: RawRow, fl: Flag): int {
    match fl
    case ExistsInAap => x.existsInAap
    case WasInAap => x.wasInAap
  }

  /** The column `f` of the joined rows, in row order. */
  function Column(rows: seq<Joined>, f: Field): (r: seq<string>)
    ensures |r| == |rows|
    ensures forall i :: 0 <= i < |rows| ==> r[i] == Value(rows[i].raw, f)
  {
    seq(|rows|, i requires 0 <= i < |rows| => Value(rows[i].raw, f))
  }

  /** True when no value in `values` contains the separator. */
  predicate AllNoSep(values: seq<string>) {
    forall i :: 0 <= i < |values| ==> NoSep(values[i])
  }

  /** The string reducer `', '.join(x.unique())`. Splitting its result gives
      back the distinct values in first-seen order, when none of them
      contains the separator. */
  function JoinUnique(values: seq<string>): (r: string)
    ensures |values| > 0 && AllNoSep(values) ==> Split(r) == Distinct(values)
  {
    var d := Distinct(values);
    if |values| > 0 && AllNoSep(values) then
      assert values[0] in d;
      assert forall i :: 0 <= i < |d| ==> NoSep(d[i]) by {
        forall i | 0 <= i < |d| ensures NoSep(d[i]) {
          assert d[i] in values;
        }
      }
      SplitJoin(d);
      Join(d)
    else
      Join(d)
  }

  /** The flag reducer `True if (x == 1).any() else False`. */
  function AnyIsOne(rows: seq<Joined>, fl: Flag): (b: bool)
    ensures b <==> exists i :: 0 <= i < |rows| && FlagValue(rows[i].raw, fl) == 1
  {
    if |rows| == 0 then false
    else if FlagValue(rows[0].raw, fl) == 1 then true
    else
      var b := AnyIsOne(rows[1..], fl);
      assert forall i :: 1 <= i < |rows| ==> rows[i] == rows[1..][i - 1];
      b
  }

  /** The column each schema reports covered states from: `agency state` in
      a Primary file, `STATE_GOOGLE` in an Alternative one. */
  function ReportedState(schema: Schema): Field {
    match schema
    case Primary => AgencyState
    case Alternative => StateGoogle
  }

  /** One aggregated row. `agencyState` is the output column `agency state`
      (Primary: the aggregated `agency state`; Alternative: the aggregated
      `STATE_GOOGLE`, renamed); `abbreviation` is the output column `LP State`
      in a Primary result and `abbreviation` in an Alternative one. */
  datatype Summary = Summary(
    schema: Schema,
    plate: string,
    agencyState: string,
    existsInAap: bool,
    wasInAap: bool,
    agencyName: string,
    lifecycleState: string,
    abbreviation: string,
    accountsInLpManagement: string,
    recommendedAccount: string)

  /** The labels of a Primary record: `abbreviation` renamed to `LP State`. */
  function PrimaryColumns(): (r: seq<string>)
    ensures |r| == 9 && NoDuplicates(r)
    ensures "agency state" in r && "agency name" in r && "LP State" in r && "license plate" in r
    ensures "STATE_GOOGLE" !in r && "abbreviation" !in r && "license_plate" !in r
  {
    var r := ["license plate", "agency state", "exists in aap", "was in aap", "agency name",
              "lifecycle state", "LP State", "Accounts_In_LP_Magement", "AGENCY RECOMMENDED ACCOUNT"];
    assert NoDuplicates(r) by {
      assert "license plate"[0] != "exists in aap"[0];
    }
    assert r[1] == "agency state" && r[4] == "agency name" && r[6] == "LP State" && r[0] == "license plate";
    assert "STATE_GOOGLE" !in r by {
      assert "agency state"[0] != "STATE_GOOGLE"[0];
    }
    assert "abbreviation" !in r by {
      assert "agency state"[1] != "abbreviation"[1];
    }
    assert "license_plate" !in r by {
      assert "license plate"[7] != "license_plate"[7];
      assert "exists in aap"[0] != "license_plate"[0];
    }
    r
  }

  /** The labels of an Alternative record: `STATE_GOOGLE` renamed to
      `agency state`, `abbreviation` kept. */
  function AlternativeColumns(): (r: seq<string>)
    ensures |r| == 9 && NoDuplicates(r)
    ensures "agency state" in r && "agency name" in r && "abbreviation" in r && "license_plate" in r
    ensures "STATE_GOOGLE" !in r && "LP State" !in r && "license plate" !in r
  {
    var r := ["license_plate", "agency state", "agency name", "lifecycle state", "abbreviation",
              "exists in aap", "was in aap", "Accounts_In_LP_Magement", "AGENCY RECOMMENDED ACCOUNT"];
    assert NoDuplicates(r) by {
      assert "license_plate"[0] != "exists in aap"[0];
      assert "agency state"[1] != "abbreviation"[1];
    }
    assert r[1] == "agency state" && r[2] == "agency name" && r[4] == "abbreviation" && r[0] == "license_plate";
    assert "STATE_GOOGLE" !in r by {
      assert "agency state"[0] != "STATE_GOOGLE"[0];
      assert "abbreviation"[0] != "STATE_GOOGLE"[0];
    }
    assert "LP State" !in r;
    assert "license plate" !in r by {
      assert "license plate"[7] != "license_plate"[7];
      assert "license plate"[0] != "exists in aap"[0];
    }
    r
  }

  /** The column labels of the records the plate search returns, after the
      rename: both schemas report states under `agency state`, only the
      Primary one renames `abbreviation` to `LP State`, and the key keeps the
      schema's own plate column name. */
  function Columns(schema: Schema): (r: seq<string>)
    ensures NoDuplicates(r)
    ensures "agency state" in r && "agency name" in r && "STATE_GOOGLE" !in r
    ensures "LP State" in r <==> schema == Primary
    ensures "abbreviation" in r <==> schema == Alternative
    ensures "license plate" in r <==> schema == Primary
    ensures "license_plate" in r <==> schema == Alternative
    ensures |r| == 9
  {
    match schema
    case Primary => PrimaryColumns()
    case Alternative => AlternativeColumns()
  }

  /** A cell of a returned record: a joined string or an aggregated flag. */
  datatype Cell = Str(text: string) | Bool(flag: bool)

  /** One column of a returned record: its label and its cell. */
  datatype Labelled = Labelled(name: string, cell: Cell)

  /** The value under `column` in a record given as labelled cells, first
      match first. */
  function CellOf(record: seq<Labelled>, column: string): Option<Cell> {
    if |record| == 0 then None
    else if record[0].name == column then Some(record[0].cell)
    else CellOf(record[1..], column)
  }

  /** The labels of a record, in order. */
  function Labels(record: seq<Labelled>): (r: seq<string>)
    ensures |r| == |record|
    ensures forall i :: 0 <= i < |r| ==> r[i] == record[i].name
  {
    seq(|record|, i requires 0 <= i < |record| => record[i].name)
  }

  /** The first cell under `column` is the one at the first index that
      carries that label. */
  lemma {:induction false} CellOfAt(record: seq<Labelled>, column: string, i: nat)
    requires i < |record| && record[i].name == column
    requires forall k :: 0 <= k < i ==> record[k].name != column
    ensures CellOf(record, column) == Some(record[i].cell)
    decreases i
  {
    if i > 0 {
      CellOfAt(record[1..], column, i - 1);
    }
  }

  /** In a record whose labels are all different, the cell under a label is
      the one at that label's index. */
  lemma {:induction false} CellOfUnique(record: seq<Labelled>, i: nat)
    requires i < |record| && NoDuplicates(Labels(record))
    ensures CellOf(record, record[i].name) == Some(record[i].cell)
  {
    var names := Labels(record);
    forall k | 0 <= k < i ensures record[k].name != record[i].name {
      assert names[k] != names[i];
    }
    CellOfAt(record, record[i].name, i);
  }

  /** Pairs each label with the cell at the same index. */
  function Zip(names: seq<string>, cells: seq<Cell>): (r: seq<Labelled>)
    requires |names| == |cells|
    ensures Labels(r) == names
    ensures |r| == |cells| && forall i :: 0 <= i < |r| ==> r[i].cell == cells[i]
  {
    seq(|cells|, i requires 0 <= i < |cells| => Labelled(names[i], cells[i]))
  }

  /** `to_dict('records')` of the summary row: its cells under the labels
      `Columns` gives, in that order. */
  function Record(s: Summary): (r: seq<Labelled>)
    ensures Labels(r) == Columns(s.schema)
  {
    var cells :=
      match s.schema
      case Primary =>
        [Str(s.plate), Str(s.agencyState), Bool(s.existsInAap), Bool(s.wasInAap), Str(s.agencyName),
         Str(s.lifecycleState), Str(s.abbreviation), Str(s.accountsInLpManagement), Str(s.recommendedAccount)]
      case Alternative =>
        [Str(s.plate), Str(s.agencyState), Str(s.agencyName), Str(s.lifecycleState), Str(s.abbreviation),
         Bool(s.existsInAap), Bool(s.wasInAap), Str(s.accountsInLpManagement), Str(s.recommendedAccount)];
    Zip(Columns(s.schema), cells)
  }

  /** Looked up by label, a returned record holds all nine of the summary's
      values: the state string sits under `agency state` in both schemas and the
      abbreviations under `LP State` (Primary) or `abbreviation`
      (Alternative). */
  lemma {:induction false} RecordCells(s: Summary)
    ensures CellOf(Record(s), "agency state") == Some(Str(s.agencyState))
    ensures CellOf(Record(s), "agency name") == Some(Str(s.agencyName))
    ensures CellOf(Record(s), "exists in aap") == Some(Bool(s.existsInAap))
    ensures CellOf(Record(s), "was in aap") == Some(Bool(s.wasInAap))
    ensures CellOf(Record(s), "lifecycle state") == Some(Str(s.lifecycleState))
    ensures CellOf(Record(s), "Accounts_In_LP_Magement") == Some(Str(s.accountsInLpManagement))
    ensures CellOf(Record(s), "AGENCY RECOMMENDED ACCOUNT") == Some(Str(s.recommendedAccount))
    ensures s.schema == Primary ==>
      && CellOf(Record(s), "license plate") == Some(Str(s.plate))
      && CellOf(Record(s), "LP State") == Some(Str(s.abbreviation))
    ensures s.schema == Alternative ==>
      && CellOf(Record(s), "license_plate") == Some(Str(s.plate))
      && CellOf(Record(s), "abbreviation") == Some(Str(s.abbreviation))
  {
    if s.schema == Primary {
      PrimaryCells(s);
    } else {
      AlternativeCells(s);
    }
  }

  /** `RecordCells` for the Primary schema. */
  lemma {:induction false} PrimaryCells(s: Summary)
    requires s.schema == Primary
    ensures CellOf(Record(s), "license plate") == Some(Str(s.plate))
    ensures CellOf(Record(s), "agency state") == Some(Str(s.agencyState))
    ensures CellOf(Record(s), "exists in aap") == Some(Bool(s.existsInAap))
    ensures CellOf(Record(s), "was in aap") == Some(Bool(s.wasInAap))
    ensures CellOf(Record(s), "agency name") == Some(Str(s.agencyName))
    ensures CellOf(Record(s), "LP State") == Some(Str(s.abbreviation))
    ensures CellOf(Record(s), "lifecycle state") == Some(Str(s.lifecycleState))
    ensures CellOf(Record(s), "Accounts_In_LP_Magement") == Some(Str(s.accountsInLpManagement))
    ensures CellOf(Record(s), "AGENCY RECOMMENDED ACCOUNT") == Some(Str(s.recommendedAccount))
  {
    var r := Record(s);
    assert NoDuplicates(Labels(r));
    CellOfUnique(r, 0);
    CellOfUnique(r, 1);
    CellOfUnique(r, 2);
    CellOfUnique(r, 3);
    CellOfUnique(r, 4);
    CellOfUnique(r, 5);
    CellOfUnique(r, 6);
    CellOfUnique(r, 7);
    CellOfUnique(r, 8);
  }

  /** `RecordCells` for the Alternative schema. */
  lemma {:induction false} AlternativeCells(s: Summary)
    requires s.schema == Alternative
    ensures CellOf(Record(s), "license_plate") == Some(Str(s.plate))
    ensures CellOf(Record(s), "agency state") == Some(Str(s.agencyState))
    ensures CellOf(Record(s), "agency name") == Some(Str(s.agencyName))
    ensures CellOf(Record(s), "abbreviation") == Some(Str(s.abbreviation))
    ensures CellOf(Record(s), "exists in aap") == Some(Bool(s.existsInAap))
    ensures CellOf(Record(s), "was in aap") == Some(Bool(s.wasInAap))
    ensures CellOf(Record(s), "lifecycle state") == Some(Str(s.lifecycleState))
    ensures CellOf(Record(s), "Accounts_In_LP_Magement") == Some(Str(s.accountsInLpManagement))
    ensures CellOf(Record(s), "AGENCY RECOMMENDED ACCOUNT") == Some(Str(s.recommendedAccount))
  {
    var r := Record(s);
    assert NoDuplicates(Labels(r));
    CellOfUnique(r, 0);
    CellOfUnique(r, 1);
    CellOfUnique(r, 2);
    CellOfUnique(r, 3);
    CellOfUnique(r, 4);
    CellOfUnique(r, 5);
    CellOfUnique(r, 6);
    CellOfUnique(r, 7);
    CellOfUnique(r, 8);
  }

  /** The aggregation of one group under the per-column reducers: the
      group's key and schema, each string column its column's distinct
      values joined by the separator (whatever the values hold), and each
      flag set iff some row has it at 1 (`SummarizeContents` reads back the
      string columns). */
  function Summarize(schema: Schema, plate: string, rows: seq<Joined>): (s: Summary)
    ensures s.schema == schema && s.plate == plate
    ensures s.agencyState == Join(Distinct(Column(rows, ReportedState(schema))))
    ensures s.agencyName == Join(Distinct(Column(rows, AgencyName)))
    ensures s.lifecycleState == Join(Distinct(Column(rows, LifecycleState)))
    ensures s.abbreviation == Join(Distinct(Column(rows, Abbreviation)))
    ensures s.accountsInLpManagement == Join(Distinct(Column(rows, AccountsInLpManagement)))
    ensures s.recommendedAccount == Join(Distinct(Column(rows, RecommendedAccount)))
    ensures s.existsInAap <==> exists i :: 0 <= i < |rows| && rows[i].raw.existsInAap == 1
    ensures s.wasInAap <==> exists i :: 0 <= i < |rows| && rows[i].raw.wasInAap == 1
  {
    Summary(
      schema,
      plate,
      JoinUnique(Column(rows, ReportedState(schema))),
      AnyIsOne(rows, ExistsInAap),
      AnyIsOne(rows, WasInAap),
      JoinUnique(Column(rows, AgencyName)),
      JoinUnique(Column(rows, LifecycleState)),
      JoinUnique(Column(rows, Abbreviation)),
      JoinUnique(Column(rows, AccountsInLpManagement)),
      JoinUnique(Column(rows, RecommendedAccount)))
  }

  /** All rows carry the same plate. */
  predicate SamePlate(rows: seq<Joined>) {
    forall i :: 0 <= i < |rows| ==> rows[i].raw.plate == rows[0].raw.plate
  }

  /** `groupby(plate column).agg(...).reset_index()` on rows that share one
      plate: no group for no rows, otherwise one row keyed by that plate. */
  function GroupByPlate(schema: Schema, rows: seq<Joined>): (g: seq<Summary>)
    requires SamePlate(rows)
    ensures |g| == if |rows| == 0 then 0 else 1
    ensures |rows| > 0 ==> g[0] == Summarize(schema, rows[0].raw.plate, rows)
  {
    if |rows| == 0 then [] else [Summarize(schema, rows[0].raw.plate, rows)]
  }

  /** What the summary row of a non-empty group holds: each string column is
      the column's distinct values in first-seen order (read back by
      splitting, which is exact when no value contains the separator), and
      each flag is set iff some contributing row has it at 1. */
  lemma {:induction false} SummarizeContents(schema: Schema, plate: string, rows: seq<Joined>, f: Field)
    requires |rows| > 0
    requires AllNoSep(Column(rows, f))
    ensures var s := Summarize(schema, plate, rows);
      && (f == ReportedState(schema) ==> Split(s.agencyState) == Distinct(Column(rows, f)))
      && (f == AgencyName ==> Split(s.agencyName) == Distinct(Column(rows, f)))
      && (f == LifecycleState ==> Split(s.lifecycleState) == Distinct(Column(rows, f)))
      && (f == Abbreviation ==> Split(s.abbreviation) == Distinct(Column(rows, f)))
      && (f == AccountsInLpManagement ==> Split(s.accountsInLpManagement) == Distinct(Column(rows, f)))
      && (f == RecommendedAccount ==> Split(s.recommendedAccount) == Distinct(Column(rows, f)))
      && (s.existsInAap <==> exists i :: 0 <= i < |rows| && rows[i].raw.existsInAap == 1)
      && (s.wasInAap <==> exists i :: 0 <= i < |rows| && rows[i].raw.wasInAap == 1)
  {
  }

  /** A row of the state-count table: a state and its fixed weight. */
  datatype StateCount = StateCount(state: string, count: int)

  /** `pd.DataFrame({'agency state': states, 'Count': [1] * len(states)})`. */
  function StateCounts(states: seq<string>): (r: seq<StateCount>)
    ensures |r| == |states|
    ensures forall i :: 0 <= i < |r| ==> r[i].state == states[i] && r[i].count == 1
  {
    seq(|states|, i requires 0 <= i < |states| => StateCount(states[i], 1))
  }

  /** The states a count table lists, in order. */
  function CountedStates(counts: seq<StateCount>): (r: seq<string>)
    ensures |r| == |counts|
    ensures forall i :: 0 <= i < |r| ==> r[i] == counts[i].state
  {
    seq(|counts|, i requires 0 <= i < |counts| => counts[i].state)
  }
}
