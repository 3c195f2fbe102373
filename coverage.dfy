/** The uploaded coverage table and the plate search over it: the schema
    chosen by file name, the exact plate filter, the left join to the catalog
    on the agency name and the filter that keeps only rows whose state agrees
    with the catalog's. */
module Coverage {
  import opened Wrappers
  import opened Text
  import opened Catalog

  /** The two layouts an uploaded coverage file can have. */
  datatype Schema = Primary | Alternative

  /** The schema is chosen by the uploaded file's name alone. */
  function SchemaOf(filename: string): (r: Option<Schema>)
    ensures r == Some(Primary) <==> filename == "Coverage Lps.xlsx"
    ensures r == Some(Alternative) <==> filename == "updated_agency.xlsx"
    ensures r == None <==> filename != "Coverage Lps.xlsx" && filename != "updated_agency.xlsx"
  {
    if filename == "Coverage Lps.xlsx" then Some(Primary)
    else if filename == "updated_agency.xlsx" then Some(Alternative)
    else None
  }

  /** One row of an uploaded coverage table, already decoded. `plate` is the
      `license plate` column of a Primary file and the `license_plate` column
      of an Alternative one; `stateGoogle` is `STATE_GOOGLE`, which only
      Alternative files carry and only the Alternative path reads. The two
      flags are the 0/1 columns `exists in aap` and `was in aap`. */
  datatype RawRow = RawRow(
    plate: string,
    agencyName: string,
    agencyState: string,
    stateGoogle: string,
    existsInAap: int,
    wasInAap: int,
    lifecycleState: string,
    abbreviation: string,
    accountsInLpManagement: string,
    recommendedAccount: string)

  /** `df[df[plate column] == plate]`: the rows whose plate equals `plate`
      exactly (no case folding on the table side), in table order. */
  function PlateRows(table: seq<RawRow>, plate: string): (r: seq<RawRow>)
    ensures forall x :: x in r <==> x in table && x.plate == plate
    ensures |r| <= |table|
  {
    if |table| == 0 then []
    else
      var rest := PlateRows(table[1..], plate);
      assert table == [table[0]] + table[1..];
      if table[0].plate == plate then [table[0]] + rest else rest
  }

  /** The plate filter keeps table order and multiplicity: the rows kept from
      two stretches of the table are those of the first followed by those of
      the second. */
  lemma {:induction false} PlateRowsAppend(a: seq<RawRow>, b: seq<RawRow>, plate: string)
    ensures PlateRows(a + b, plate) == PlateRows(a, plate) + PlateRows(b, plate)
    decreases |a|
  {
    if |a| > 0 {
      assert (a + b)[1..] == a[1..] + b;
      PlateRowsAppend(a[1..], b, plate);
    } else {
      assert a + b == b;
    }
  }

  /** A row of the left join: the coverage row and the catalog row it met, or
      `None` where no catalog row has its agency name (pandas fills NaN). */
  datatype Joined = Joined(raw: RawRow, entry: Option<CatalogEntry>)

  /** The catalog rows whose `AGENCY` equals `name`, in catalog order. */
  function NamedEntries(catalog: seq<CatalogEntry>, name: string): (r: seq<CatalogEntry>)
    ensures forall e :: e in r <==> e in catalog && e.agency == name
  {
    if |catalog| == 0 then []
    else
      var rest := NamedEntries(catalog[1..], name);
      assert catalog == [catalog[0]] + catalog[1..];
      if catalog[0].agency == name then [catalog[0]] + rest else rest
  }

  /** Pairs `x` with each of `entries`. */
  function Pair(x: RawRow, entries: seq<CatalogEntry>): (r: seq<Joined>)
    ensures |r| == |entries|
    ensures forall i :: 0 <= i < |r| ==> r[i] == Joined(x, Some(entries[i]))
  {
    seq(|entries|, i requires 0 <= i < |entries| => Joined(x, Some(entries[i])))
  }

  /** The left join of one coverage row: one joined row per catalog row with
      its agency name, or one unmatched row when there is none. */
  function LeftJoinRow(x: RawRow, catalog: seq<CatalogEntry>): (r: seq<Joined>)
    ensures |r| >= 1
    ensures forall j :: j in r <==> j.raw == x && LeftJoined(j, catalog)
  {
    var named := NamedEntries(catalog, x.agencyName);
    if |named| == 0 then [Joined(x, None)]
    else
      var r := Pair(x, named);
      assert forall j :: j in r <==> j.raw == x && LeftJoined(j, catalog) by {
        forall j ensures j in r <==> j.raw == x && LeftJoined(j, catalog) {
          if j.raw == x && LeftJoined(j, catalog) && j.entry.Some? {
            var i :| 0 <= i < |named| && named[i] == j.entry.value;
            assert r[i] == j;
          }
          if j.raw == x && j.entry.None? {
            assert named[0] in catalog;
          }
        }
      }
      r
  }

  /** What a left join may pair a coverage row with: a catalog row of the
      same agency name, or nothing when the catalog has no such row. */
  predicate LeftJoined(j: Joined, catalog: seq<CatalogEntry>) {
    if j.entry.Some? then j.entry.value in catalog && j.entry.value.agency == j.raw.agencyName
    else forall e :: e in catalog ==> e.agency != j.raw.agencyName
  }

  /** `pd.merge(rows, catalog, how='left', left_on='agency name', right_on='AGENCY')`. */
  function LeftJoin(rows: seq<RawRow>, catalog: seq<CatalogEntry>): (r: seq<Joined>)
    ensures |r| >= |rows|
    ensures forall j :: j in r <==> j.raw in rows && LeftJoined(j, catalog)
  {
    if |rows| == 0 then []
    else
      assert rows == [rows[0]] + rows[1..];
      LeftJoinRow(rows[0], catalog) + LeftJoin(rows[1..], catalog)
  }

  /** The left merge keeps the table's row order: the join of two stretches
      of the table is the join of the first followed by that of the second. */
  lemma {:induction false} LeftJoinAppend(a: seq<RawRow>, b: seq<RawRow>, catalog: seq<CatalogEntry>)
    ensures LeftJoin(a + b, catalog) == LeftJoin(a, catalog) + LeftJoin(b, catalog)
    decreases |a|
  {
    if |a| == 0 {
      assert a + b == b;
    } else {
      assert (a + b)[0] == a[0];
      assert (a + b)[1..] == a[1..] + b;
      LeftJoinAppend(a[1..], b, catalog);
    }
  }

  /** `agency state == Agency STATE` on a joined row; a row without a catalog
      match has NaN there and fails. */
  predicate StateAgrees(j: Joined): (b: bool)
    ensures j.entry.None? ==> !b
    ensures j.entry.Some? ==> (b <==> j.entry.value.agencyState == j.raw.agencyState)
  {
    j.entry.Some? && j.entry.value.agencyState == j.raw.agencyState
  }

  /** The boolean-mask filter on `StateAgrees`, in order. */
  function KeepAgreeing(js: seq<Joined>): (r: seq<Joined>)
    ensures forall j :: j in r <==> j in js && StateAgrees(j)
  {
    if |js| == 0 then []
    else
      assert js == [js[0]] + js[1..];
      if StateAgrees(js[0]) then [js[0]] + KeepAgreeing(js[1..])
      else KeepAgreeing(js[1..])
  }

  /** The plate search's merge followed by its state-consistency filter. */
  function Reconcile(rows: seq<RawRow>, catalog: seq<CatalogEntry>): (r: seq<Joined>)
    ensures forall j :: j in r <==> j.raw in rows && LeftJoined(j, catalog) && StateAgrees(j)
  {
    KeepAgreeing(LeftJoin(rows, catalog))
  }

  /** The catalog rows a coverage row is consistent with: same agency name and
      same state, in catalog order. */
  function ConsistentEntries(x: RawRow, catalog: seq<CatalogEntry>): (r: seq<CatalogEntry>)
    ensures forall e :: e in r <==> e in catalog && e.agency == x.agencyName && e.agencyState == x.agencyState
  {
    if |catalog| == 0 then []
    else
      var rest := ConsistentEntries(x, catalog[1..]);
      assert catalog == [catalog[0]] + catalog[1..];
      if catalog[0].agency == x.agencyName && catalog[0].agencyState == x.agencyState
      then [catalog[0]] + rest else rest
  }

  /** Reference definition of reconciliation without the intermediate join:
      each coverage row, in order, contributes one row per consistent catalog
      row and nothing else. */
  function ConsistentJoin(rows: seq<RawRow>, catalog: seq<CatalogEntry>): (r: seq<Joined>)
    ensures forall j :: j in r <==>
      j.raw in rows && j.entry.Some? && j.entry.value in catalog &&
      j.entry.value.agency == j.raw.agencyName && j.entry.value.agencyState == j.raw.agencyState
  {
    if |rows| == 0 then []
    else
      var head := Pair(rows[0], ConsistentEntries(rows[0], catalog));
      var rest := ConsistentJoin(rows[1..], catalog);
      assert rows == [rows[0]] + rows[1..];
      assert forall j :: j in head <==>
        j.raw == rows[0] && j.entry.Some? && j.entry.value in ConsistentEntries(rows[0], catalog) by {
        forall j ensures j in head <==>
          j.raw == rows[0] && j.entry.Some? && j.entry.value in ConsistentEntries(rows[0], catalog) {
          if j.raw == rows[0] && j.entry.Some? && j.entry.value in ConsistentEntries(rows[0], catalog) {
            var i :| 0 <= i < |ConsistentEntries(rows[0], catalog)| && ConsistentEntries(rows[0], catalog)[i] == j.entry.value;
            assert head[i] == j;
          }
        }
      }
      head + rest
  }

  /** The reference pairing also follows the table's row order. */
  lemma {:induction false} ConsistentJoinAppend(a: seq<RawRow>, b: seq<RawRow>, catalog: seq<CatalogEntry>)
    ensures ConsistentJoin(a + b, catalog) == ConsistentJoin(a, catalog) + ConsistentJoin(b, catalog)
    decreases |a|
  {
    if |a| == 0 {
      assert a + b == b;
    } else {
      assert (a + b)[0] == a[0];
      assert (a + b)[1..] == a[1..] + b;
      ConsistentJoinAppend(a[1..], b, catalog);
    }
  }

  /** Reconciliation keeps the table's row order, so the first-seen order
      of every aggregated column follows the uploaded table. */
  lemma {:induction false} ReconcileAppend(a: seq<RawRow>, b: seq<RawRow>, catalog: seq<CatalogEntry>)
    ensures Reconcile(a + b, catalog) == Reconcile(a, catalog) + Reconcile(b, catalog)
  {
    LeftJoinAppend(a, b, catalog);
    KeepAgreeingAppend(LeftJoin(a, catalog), LeftJoin(b, catalog));
  }

  lemma {:induction false} KeepAgreeingAppend(a: seq<Joined>, b: seq<Joined>)
    ensures KeepAgreeing(a + b) == KeepAgreeing(a) + KeepAgreeing(b)
    decreases |a|
  {
    if |a| == 0 {
      assert a + b == b;
    } else {
      assert (a + b)[0] == a[0];
      assert (a + b)[1..] == a[1..] + b;
      KeepAgreeingAppend(a[1..], b);
    }
  }

  /** On the join of one row, the state filter keeps exactly its consistent
      catalog rows. */
  lemma {:induction false} KeepAgreeingPair(x: RawRow, catalog: seq<CatalogEntry>)
    ensures KeepAgreeing(Pair(x, NamedEntries(catalog, x.agencyName))) == Pair(x, ConsistentEntries(x, catalog))
    decreases |catalog|
  {
    if |catalog| > 0 {
      var c := catalog[0];
      KeepAgreeingPair(x, catalog[1..]);
      if c.agency == x.agencyName {
        KeepAgreeingPairHead(x, catalog);
      } else {
        assert NamedEntries(catalog, x.agencyName) == NamedEntries(catalog[1..], x.agencyName);
        assert ConsistentEntries(x, catalog) == ConsistentEntries(x, catalog[1..]);
      }
    }
  }

  /** Pairing distributes over a leading catalog row. */
  lemma {:induction false} PairCons(x: RawRow, e: CatalogEntry, es: seq<CatalogEntry>)
    ensures Pair(x, [e] + es) == [Joined(x, Some(e))] + Pair(x, es)
  {
    var l := Pair(x, [e] + es);
    var r := [Joined(x, Some(e))] + Pair(x, es);
    assert |l| == |r|;
    forall i | 0 <= i < |l| ensures l[i] == r[i] {
      if i > 0 {
        assert ([e] + es)[i] == es[i - 1];
      }
    }
  }

  /** The step of `KeepAgreeingPair` for a first catalog row that has the
      coverage row's agency name. */
  lemma {:induction false} KeepAgreeingPairHead(x: RawRow, catalog: seq<CatalogEntry>)
    requires |catalog| > 0 && catalog[0].agency == x.agencyName
    requires KeepAgreeing(Pair(x, NamedEntries(catalog[1..], x.agencyName))) == Pair(x, ConsistentEntries(x, catalog[1..]))
    ensures KeepAgreeing(Pair(x, NamedEntries(catalog, x.agencyName))) == Pair(x, ConsistentEntries(x, catalog))
  {
    var c := catalog[0];
    var j := Joined(x, Some(c));
    var named := NamedEntries(catalog[1..], x.agencyName);
    var consistent := ConsistentEntries(x, catalog[1..]);
    var tail := Pair(x, named);
    var kept: seq<Joined> := if c.agencyState == x.agencyState then [j] else [];
    assert Pair(x, NamedEntries(catalog, x.agencyName)) == [j] + tail by {
      assert NamedEntries(catalog, x.agencyName) == [c] + named;
      PairCons(x, c, named);
    }
    assert KeepAgreeing([j] + tail) == kept + KeepAgreeing(tail) by {
      assert ([j] + tail)[0] == j && ([j] + tail)[1..] == tail;
    }
    assert Pair(x, ConsistentEntries(x, catalog)) == kept + Pair(x, consistent) by {
      if c.agencyState == x.agencyState {
        assert ConsistentEntries(x, catalog) == [c] + consistent;
        PairCons(x, c, consistent);
      } else {
        assert ConsistentEntries(x, catalog) == consistent;
        assert kept + Pair(x, consistent) == Pair(x, consistent);
      }
    }
  }

  /** Every consistent catalog row of a coverage row also has its agency
      name, so there are never more of the former. */
  lemma {:induction false} ConsistentWithinNamed(x: RawRow, catalog: seq<CatalogEntry>)
    ensures |ConsistentEntries(x, catalog)| <= |NamedEntries(catalog, x.agencyName)|
    decreases |catalog|
  {
    if |catalog| > 0 {
      ConsistentWithinNamed(x, catalog[1..]);
    }
  }

  /** Merging and then filtering on state agreement is the same as pairing
      every coverage row with its consistent catalog rows: order and
      multiplicity included, and rows with no catalog match drop out. */
  lemma {:induction false} ReconcileIsConsistentJoin(rows: seq<RawRow>, catalog: seq<CatalogEntry>)
    ensures Reconcile(rows, catalog) == ConsistentJoin(rows, catalog)
    decreases |rows|
  {
    if |rows| > 0 {
      var x := rows[0];
      KeepAgreeingAppend(LeftJoinRow(x, catalog), LeftJoin(rows[1..], catalog));
      ReconcileIsConsistentJoin(rows[1..], catalog);
      if |NamedEntries(catalog, x.agencyName)| == 0 {
        ConsistentWithinNamed(x, catalog);
        assert KeepAgreeing([Joined(x, None)]) == [];
      } else {
        KeepAgreeingPair(x, catalog);
      }
    }
  }
}
