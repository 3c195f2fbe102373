/** The dashboard's one callback, `update_content`: the agency search, the
    plate search over an uploaded file, and the choice between them and the
    "Invalid file" and "No search input" outcomes. Figures are not modelled;
    each outcome keeps what its figure shows (the state-count table, and the
    agencies or plate named in its title) and the record table returned
    beside it. */
module Dashboard {
  import opened Wrappers
  import opened Text
  import opened Catalog
  import opened Coverage
  import opened Aggregate

  /** What one call of the callback produces. The first two are the maps
      with data; the next four are an empty map with a title and an empty
      record table; `IndexError` is the exception the plate search raises
      when the state filter has removed every row. */
  datatype Outcome =
    | AgencyMap(agencies: seq<string>, counts: seq<StateCount>, agencyRows: seq<CatalogEntry>)
    | PlateMap(plate: string, counts: seq<StateCount>, summaries: seq<Summary>, records: seq<seq<Labelled>>)
    | NoAgencyData
    | InvalidFile
    | NoPlateData(plate: string)
    | NoSearchInput
    | IndexError(plate: string)

  /** The callback returned a map with data. */
  predicate Found(o: Outcome) { o.AgencyMap? || o.PlateMap? }

  /** The callback returned at all, rather than raising. */
  predicate Returns(o: Outcome) { !o.IndexError? }

  /** The state-count table behind the returned figure. */
  function Counts(o: Outcome): seq<StateCount> {
    match o
    case AgencyMap(_, counts, _) => counts
    case PlateMap(_, counts, _, _) => counts
    case _ => []
  }

  /** The number of records in the returned table. */
  function RecordCount(o: Outcome): nat {
    match o
    case AgencyMap(_, _, agencyRows) => |agencyRows|
    case PlateMap(_, _, _, records) => |records|
    case _ => 0
  }

  /** The agency search: the selected catalog rows as records, and one count
      row of weight 1 per distinct state among them, first-seen first. */
  function AgencySearch(catalog: seq<CatalogEntry>, selected: seq<string>): (o: Outcome)
    ensures o.AgencyMap? || o == NoAgencyData
    ensures o.AgencyMap? <==> exists e :: e in catalog && Selected(e, selected)
    ensures o.AgencyMap? ==>
      && o.agencies == selected
      && o.agencyRows == AgencyRows(catalog, selected)
      && |o.counts| > 0
      && CountedStates(o.counts) == CoveredStates(o.agencyRows)
      && NoDuplicates(CountedStates(o.counts))
      && (forall i :: 0 <= i < |o.counts| ==> o.counts[i].count == 1)
      && (forall s :: s in CountedStates(o.counts) <==> exists e :: e in o.agencyRows && e.agencyState == s)
  {
    var rows := AgencyRows(catalog, selected);
    if |rows| > 0 then
      var states := CoveredStates(rows);
      assert rows[0] in rows;
      assert CountedStates(StateCounts(states)) == states;
      AgencyMap(selected, StateCounts(states), rows)
    else
      assert forall e :: e in catalog && Selected(e, selected) ==> e in rows;
      NoAgencyData
  }

  /** What reconciliation keeps: rows of the input, and empty exactly when no
      input row has a catalog row of the same agency name and state. */
  lemma {:induction false} ReconciledRows(rows: seq<RawRow>, catalog: seq<CatalogEntry>)
    ensures forall j :: j in Reconcile(rows, catalog) ==> j.raw in rows
    ensures |Reconcile(rows, catalog)| == 0 <==>
      forall x, e :: x in rows && e in catalog ==> !(e.agency == x.agencyName && e.agencyState == x.agencyState)
  {
    ReconcileIsConsistentJoin(rows, catalog);
    var r := Reconcile(rows, catalog);
    if |r| > 0 {
      assert r[0] in r;
    }
    if exists x, e :: x in rows && e in catalog && e.agency == x.agencyName && e.agencyState == x.agencyState {
      var x, e :| x in rows && e in catalog && e.agency == x.agencyName && e.agencyState == x.agencyState;
      assert Joined(x, Some(e)) in ConsistentJoin(rows, catalog);
    }
  }

  /** The plate search on an already upper-cased `plate`: rows matching it
      exactly, merged with the catalog, kept where the states agree, and
      collapsed into one summary row whose states feed the count table. */
  function PlateSearch(catalog: seq<CatalogEntry>, schema: Schema, table: seq<RawRow>, plate: string): (o: Outcome)
    ensures o.PlateMap? || o.NoPlateData? || o.IndexError?
    ensures o.NoPlateData? <==> forall x :: x in table ==> x.plate != plate
    ensures o.IndexError? <==>
      && (exists x :: x in table && x.plate == plate)
      && (forall x, e :: x in table && x.plate == plate && e in catalog ==>
            !(e.agency == x.agencyName && e.agencyState == x.agencyState))
    ensures o.PlateMap? || o.NoPlateData? || o.IndexError? ==> o.plate == plate
    ensures o.PlateMap? ==>
      && o.summaries == [Summarize(schema, plate, Reconcile(PlateRows(table, plate), catalog))]
      && o.records == [Record(o.summaries[0])]
      && CountedStates(o.counts) == Split(o.summaries[0].agencyState)
      && |o.counts| > 0
      && (forall i :: 0 <= i < |o.counts| ==> o.counts[i].count == 1)
  {
    var hits := PlateRows(table, plate);
    if |hits| == 0 then
      assert forall x :: x in table && x.plate == plate ==> x in hits;
      NoPlateData(plate)
    else
      var joined := Reconcile(hits, catalog);
      assert |joined| == 0 <==>
        forall x, e :: x in hits && e in catalog ==> !(e.agency == x.agencyName && e.agencyState == x.agencyState)
      by {
        ReconciledRows(hits, catalog);
      }
      assert SamePlate(joined) && (|joined| > 0 ==> joined[0].raw.plate == plate) by {
        ReconciledRows(hits, catalog);
        forall i | 0 <= i < |joined| ensures joined[i].raw.plate == plate {
          assert joined[i] in joined;
        }
      }
      if |joined| == 0 then
        IndexError(plate)
      else
        PlateMapOf(schema, plate, joined)
  }

  /** The map the plate search returns for a non-empty reconciled group:
      its one summary row, that row as the returned record, and the states
      split out of the summary with weight 1. */
  function PlateMapOf(schema: Schema, plate: string, joined: seq<Joined>): (o: Outcome)
    requires |joined| > 0 && SamePlate(joined) && joined[0].raw.plate == plate
    ensures o.PlateMap? && o.plate == plate
    ensures o.summaries == [Summarize(schema, plate, joined)]
    ensures o.records == [Record(o.summaries[0])]
    ensures CountedStates(o.counts) == Split(o.summaries[0].agencyState)
    ensures |o.counts| > 0 && forall i :: 0 <= i < |o.counts| ==> o.counts[i].count == 1
  {
    var groups := GroupByPlate(schema, joined);
    var states := Split(groups[0].agencyState);
    assert CountedStates(StateCounts(states)) == states;
    PlateMap(plate, StateCounts(states), groups, [Record(groups[0])])
  }

  /** `update_content`. `contents` is the decoded upload, if any; `clicks` the
      search button's click count (none is 0); an absent plate input or
      selection is the empty one. */
  function UpdateContent(
    catalog: seq<CatalogEntry>, contents: Option<seq<RawRow>>, lpInput: string,
    clicks: nat, selected: seq<string>, filename: string): (o: Outcome)
    // a selection decides the outcome by itself
    ensures |selected| > 0 ==> o.AgencyMap? || o == NoAgencyData
    // no upload or no click: nothing to search
    ensures |selected| == 0 && (contents.None? || clicks == 0) ==> o == NoSearchInput
    // an upload whose name is not one of the two known ones
    ensures |selected| == 0 && contents.Some? && clicks > 0 && SchemaOf(filename).None? ==> o == InvalidFile
    // a known upload but an empty plate input falls through
    ensures |selected| == 0 && contents.Some? && clicks > 0 && SchemaOf(filename).Some? && lpInput == "" ==>
      o == NoSearchInput
    // the plate outcomes carry the upper-cased input
    ensures o.PlateMap? || o.NoPlateData? || o.IndexError? ==>
      |selected| == 0 && lpInput != "" && o.plate == ToUpper(lpInput)
    // a known upload with a plate runs the plate search on the upper-cased plate
    ensures |selected| == 0 && contents.Some? && clicks > 0 && SchemaOf(filename).Some? && lpInput != "" ==>
      o == PlateSearch(catalog, SchemaOf(filename).value, contents.value, ToUpper(lpInput))
    // a returned map with data has both a count table and records; any other
    // returned outcome has neither
    ensures Returns(o) ==> (Found(o) <==> |Counts(o)| > 0) && (Found(o) <==> RecordCount(o) > 0)
    ensures forall i :: 0 <= i < |Counts(o)| ==> Counts(o)[i].count == 1
  {
    if |selected| > 0 then AgencySearch(catalog, selected)
    else if contents.Some? && clicks > 0 then
      match SchemaOf(filename)
      case None => InvalidFile
      case Some(schema) =>
        if |lpInput| > 0 then PlateSearch(catalog, schema, contents.value, ToUpper(lpInput))
        else NoSearchInput
    else NoSearchInput
  }

  /** With agencies selected, the upload, the plate input, the clicks and the
      file name make no difference. */
  lemma {:induction false} SelectionIgnoresUpload(
    catalog: seq<CatalogEntry>, selected: seq<string>,
    contents1: Option<seq<RawRow>>, lpInput1: string, clicks1: nat, filename1: string,
    contents2: Option<seq<RawRow>>, lpInput2: string, clicks2: nat, filename2: string)
    requires |selected| > 0
    ensures UpdateContent(catalog, contents1, lpInput1, clicks1, selected, filename1)
         == UpdateContent(catalog, contents2, lpInput2, clicks2, selected, filename2)
         == AgencySearch(catalog, selected)
  {
  }

  /** The plate input is upper-cased before the search, so its case never
      matters. */
  lemma {:induction false} InputCaseIgnored(
    catalog: seq<CatalogEntry>, contents: Option<seq<RawRow>>, lpInput: string,
    clicks: nat, selected: seq<string>, filename: string)
    ensures UpdateContent(catalog, contents, lpInput, clicks, selected, filename)
         == UpdateContent(catalog, contents, ToUpper(lpInput), clicks, selected, filename)
  {
    ToUpperIdempotent(lpInput);
  }

  /** Only the input is upper-cased: a table row whose plate holds a
      lower-case letter is never found, whatever is typed. */
  lemma {:induction false} LowerCaseTablePlateNeverMatches(table: seq<RawRow>, lpInput: string, x: RawRow, k: nat)
    requires x in table
    requires k < |x.plate| && IsLower(x.plate[k])
    ensures x !in PlateRows(table, ToUpper(lpInput))
  {
  }

  /** The count table of a plate search lists each state of the reconciled
      rows once, first-seen first, with weight 1, provided no state contains
      the separator. */
  lemma {:induction false} PlateCountsAreDistinctStates(catalog: seq<CatalogEntry>, schema: Schema, table: seq<RawRow>, plate: string)
    requires PlateSearch(catalog, schema, table, plate).PlateMap?
    requires AllNoSep(Column(Reconcile(PlateRows(table, plate), catalog), ReportedState(schema)))
    ensures var o := PlateSearch(catalog, schema, table, plate);
      var states := Distinct(Column(Reconcile(PlateRows(table, plate), catalog), ReportedState(schema)));
      && CountedStates(o.counts) == states
      && |o.counts| == |states|
      && NoDuplicates(CountedStates(o.counts))
  {
    var joined := Reconcile(PlateRows(table, plate), catalog);
    var col := Column(joined, ReportedState(schema));
    var o := PlateSearch(catalog, schema, table, plate);
    assert joined[0] in joined;
    assert o.counts == StateCounts(Split(JoinUnique(col)));
  }

  /** Where every row's `STATE_GOOGLE` equals its `agency state`, the two
      schemas give the same outcome, field for field, except for the schema
      tag of the summary row (which decides its column labels). */
  lemma {:induction false} SchemasAgree(catalog: seq<CatalogEntry>, table: seq<RawRow>, plate: string)
    requires forall x :: x in table ==> x.stateGoogle == x.agencyState
    ensures var p := PlateSearch(catalog, Primary, table, plate);
      var a := PlateSearch(catalog, Alternative, table, plate);
      && (p.PlateMap? <==> a.PlateMap?)
      && (p.PlateMap? ==> p.counts == a.counts && a.summaries == [p.summaries[0].(schema := Alternative)])
      && (!p.PlateMap? ==> p == a)
  {
    var hits := PlateRows(table, plate);
    var joined := Reconcile(hits, catalog);
    assert Column(joined, StateGoogle) == Column(joined, AgencyState) by {
      ReconciledRows(hits, catalog);
      forall i | 0 <= i < |joined| ensures joined[i].raw.stateGoogle == joined[i].raw.agencyState {
        assert joined[i] in joined;
      }
    }
  }

  /** The catalog filter of the `DOT` example keeps the three DOT rows. */
  lemma {:induction false} DotRows(dot: CatalogEntry, dotNv: CatalogEntry, chp: CatalogEntry)
    requires dot.abbv == "DOT" && dotNv.abbv == "DOT"
    requires chp.agency != "DOT" && chp.abbv != "DOT"
    ensures AgencyRows([dot, dot, dotNv, chp], ["DOT"]) == [dot, dot, dotNv]
  {
    var catalog := [dot, dot, dotNv, chp];
    assert catalog[1..][1..][1..] == [chp] && [chp][1..] == [];
    assert AgencyRows([chp], ["DOT"]) == [];
    assert AgencyRows(catalog[1..][1..], ["DOT"]) == [dotNv];
    assert AgencyRows(catalog[1..], ["DOT"]) == [dot, dotNv];
  }

  /** `unique()` of the example's state column. */
  lemma {:induction false} DotStates()
    ensures Distinct(["CA", "CA", "NV"]) == ["CA", "NV"]
  {
    var col := ["CA", "CA", "NV"];
    assert col[..2] == ["CA", "CA"] && col[..2][..1] == ["CA"] && col[..2][..1][..0] == [];
  }

  /** Selecting `DOT`, whose catalog rows lie in CA, CA and NV, maps CA and
      NV once each, in that order, and returns all three rows. */
  lemma {:induction false} DotSelectionExample()
    ensures var catalog := [
        CatalogEntry("Department of Transportation", "DOT", "CA"),
        CatalogEntry("Department of Transportation", "DOT", "CA"),
        CatalogEntry("Department of Transportation", "DOT", "NV"),
        CatalogEntry("Highway Patrol", "CHP", "CA")];
      var o := AgencySearch(catalog, ["DOT"]);
      o.AgencyMap? && o.counts == [StateCount("CA", 1), StateCount("NV", 1)] && |o.agencyRows| == 3
  {
    var dot := CatalogEntry("Department of Transportation", "DOT", "CA");
    var dotNv := CatalogEntry("Department of Transportation", "DOT", "NV");
    var chp := CatalogEntry("Highway Patrol", "CHP", "CA");
    DotRows(dot, dotNv, chp);
    var rows := [dot, dot, dotNv];
    assert StateColumn(rows) == ["CA", "CA", "NV"];
    DotStates();
    assert CoveredStates(rows) == ["CA", "NV"];
    assert StateCounts(["CA", "NV"]) == [StateCount("CA", 1), StateCount("NV", 1)];
  }
}
