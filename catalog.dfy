/** The sub-agency catalog, loaded once from a spreadsheet at start-up and
    only read afterwards, and the lookup the agency search runs on it. */
module Catalog {
  import opened Text

  /** One catalog row: the columns `AGENCY`, `ABBV` and `Agency STATE`. */
  datatype CatalogEntry = CatalogEntry(agency: string, abbv: string, agencyState: string)

  /** True when the row's `AGENCY` or its `ABBV` is among the selected values. */
  predicate Selected(e: CatalogEntry, selected: seq<string>) {
    e.agency in selected || e.abbv in selected
  }

  /** The boolean-mask filter `AGENCY.isin(selected) | ABBV.isin(selected)`:
      the selected rows, each as often as it occurs, in catalog order. */
  function AgencyRows(catalog: seq<CatalogEntry>, selected: seq<string>): (r: seq<CatalogEntry>)
    ensures forall e :: e in r <==> e in catalog && Selected(e, selected)
    ensures |r| <= |catalog|
  {
    if |catalog| == 0 then []
    else
      var rest := AgencyRows(catalog[1..], selected);
      assert catalog == [catalog[0]] + catalog[1..];
      if Selected(catalog[0], selected) then [catalog[0]] + rest else rest
  }

  /** The filter keeps catalog order: the rows selected from two stretches of
      the catalog are those of the first stretch followed by those of the second. */
  lemma {:induction false} AgencyRowsAppend(a: seq<CatalogEntry>, b: seq<CatalogEntry>, selected: seq<string>)
    ensures AgencyRows(a + b, selected) == AgencyRows(a, selected) + AgencyRows(b, selected)
    decreases |a|
  {
    if |a| > 0 {
      assert (a + b)[1..] == a[1..] + b;
      AgencyRowsAppend(a[1..], b, selected);
    } else {
      assert a + b == b;
    }
  }

  /** The `Agency STATE` column of some catalog rows. */
  function StateColumn(rows: seq<CatalogEntry>): (r: seq<string>)
    ensures |r| == |rows|
    ensures forall i :: 0 <= i < |rows| ==> r[i] == rows[i].agencyState
  {
    seq(|rows|, i requires 0 <= i < |rows| => rows[i].agencyState)
  }

  /** `agency_data['Agency STATE'].unique()`: every state of a selected row,
      once, and no other; the order is first-seen (`DistinctFirstSeen` on the
      state column). */
  function CoveredStates(rows: seq<CatalogEntry>): (r: seq<string>)
    ensures r == Distinct(StateColumn(rows))
    ensures NoDuplicates(r)
    ensures forall s :: s in r <==> exists e :: e in rows && e.agencyState == s
    ensures |rows| > 0 ==> |r| > 0
  {
    var col := StateColumn(rows);
    assert forall s :: s in col <==> exists e :: e in rows && e.agencyState == s by {
      forall s ensures s in col <==> exists e :: e in rows && e.agencyState == s {
        if s in col {
          var i :| 0 <= i < |col| && col[i] == s;
          assert rows[i] in rows;
        }
        if exists e :: e in rows && e.agencyState == s {
          var e :| e in rows && e.agencyState == s;
          var i :| 0 <= i < |rows| && rows[i] == e;
          assert col[i] == s;
        }
      }
    }
    assert |rows| > 0 ==> col[0] in Distinct(col);
    Distinct(col)
  }
}
