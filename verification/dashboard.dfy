/** The dashboard's computations over the selected sheet: it resolves the
    location, product and quantity columns with the loop-with-break search,
    and builds each panel only when the roles that panel needs were found.
    Rendering, charts and the download button are not modelled. */
module Dashboard {
  import opened Options
  import opened Seqs
  import opened Table
  import opened Resolver
  import opened Aggregator

  /** "Total de Sedes", "Total de Registros" and "Columnas de Datos". */
  datatype SedePanel = SedePanel(sedes: nat, registros: nat, columnas: nat)

  /** The panels of one dashboard; a panel whose roles are missing is None. */
  datatype Summary = Summary(
    sede: Option<SedePanel>,
    productos: Option<seq<Freq<Value>>>,
    stock: Option<StockStats>,
    comparativa: Option<Comparison<Value>>)

  /** Pairs the location and quantity cells of each row. */
  function Pairs(locs: seq<Value>, qs: seq<int>): (ps: seq<Record<Value>>)
    requires |locs| == |qs|
    ensures Locations(ps) == locs && Quantities(ps) == qs
  {
    seq(|locs|, i requires 0 <= i < |locs| => Record(locs[i], qs[i]))
  }

  /** What the dashboard of a non-empty sheet shows, stated against the
      mapping `analyze_inventory` computes for the same columns. */
  ghost predicate IsSummary(d: Dataset, s: Summary)
    requires WellFormed(d)
  {
    var m := AnalyzeInventory(d.columns);
    && (s.sede.Some? <==> Sede in m)
    && (Sede in m ==>
          && s.sede.Some?
          && s.sede.value == SedePanel(|set v | v in Column(d, m[Sede])|, |d.rows|, |d.columns|))
    && (s.productos.Some? <==> Producto in m)
    && (Producto in m ==>
          && s.productos.Some?
          && IsTopRanking(Column(d, m[Producto]), s.productos.value, TopProducts))
    && (s.stock.Some? <==> Cantidad in m && IsNumeric(Column(d, m[Cantidad])))
    && (s.stock.Some? ==> IsStockSummary(Ints(Column(d, m[Cantidad])), s.stock.value))
    && (s.comparativa.Some? <==> Sede in m && Cantidad in m && IsNumeric(Column(d, m[Cantidad])))
    && (s.comparativa.Some? ==>
          && IsComparison(Pairs(Column(d, m[Sede]), Ints(Column(d, m[Cantidad]))), s.comparativa.value)
          && |s.comparativa.value.rows| == s.sede.value.sedes)
  }

  /** `mostrar_dashboard` on the sheet the user selected: nothing is shown
      for an empty sheet; otherwise each panel is present exactly when its
      columns were resolved (and, for the stock figures and the comparison,
      the quantity column is numeric). */
  method ShowDashboard(sheets: map<string, Dataset>, selected: string) returns (r: Option<Summary>)
    requires selected in sheets && WellFormed(sheets[selected])
    ensures r.None? <==> IsEmpty(sheets[selected])
    ensures r.Some? ==> IsSummary(sheets[selected], r.value)
  {
    var d := sheets[selected];
    if IsEmpty(d) {
      return None;
    }
    var m := AnalyzeInventory(d.columns);
    var colSede := FindColumn(d.columns, Keyword(Sede));
    ResolutionUnique(d.columns, Keyword(Sede), colSede, Lookup(m, Sede));
    var colProducto := FindColumn(d.columns, Keyword(Producto));
    ResolutionUnique(d.columns, Keyword(Producto), colProducto, Lookup(m, Producto));
    var colCantidad := FindColumn(d.columns, Keyword(Cantidad));
    ResolutionUnique(d.columns, Keyword(Cantidad), colCantidad, Lookup(m, Cantidad));

    var sede: Option<SedePanel> := None;
    if colSede.Some? {
      sede := Some(SedePanel(DistinctCount(Column(d, colSede.value)), |d.rows|, |d.columns|));
    }

    var productos: Option<seq<Freq<Value>>> := None;
    if colProducto.Some? {
      productos := Some(Top(Column(d, colProducto.value), TopProducts));
    }

    var stock: Option<StockStats> := None;
    if colCantidad.Some? {
      stock := Stock(Column(d, colCantidad.value));
    }

    var comparativa: Option<Comparison<Value>> := None;
    if colSede.Some? && colCantidad.Some? && IsNumeric(Column(d, colCantidad.value)) {
      var locs := Column(d, colSede.value);
      var ps := Pairs(locs, Ints(Column(d, colCantidad.value)));
      var c := Compare(ps);
      UniqueCount(locs);
      assert |c.rows| == |Keys(c.rows)|;
      comparativa := Some(c);
    }

    r := Some(Summary(sede, productos, stock, comparativa));
  }

  /** The comparison of three records at two locations: location A holds
      two records totalling 30 (mean 15), B one record of 5; A has the
      most stock and B the least. */
  lemma ComparisonExample()
    ensures var rows := GroupBy([Record(Str("A"), 10), Record(Str("A"), 20), Record(Str("B"), 5)]);
            && rows == [GroupRow(Str("A"), 30, 2), GroupRow(Str("B"), 5, 1)]
            && rows[0].Average() == 15.0 && rows[1].Average() == 5.0
            && IsFirstMax(rows, 0) && IsFirstMin(rows, 1)
  {
    var ps := [Record(Str("A"), 10), Record(Str("A"), 20), Record(Str("B"), 5)];
    assert ps[..2] == [Record(Str("A"), 10), Record(Str("A"), 20)];
    assert ps[..2][..1] == [Record(Str("A"), 10)];
    assert ps[..2][..1][..0] == [];
  }
}
