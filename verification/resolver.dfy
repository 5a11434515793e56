/** The column resolver: assigns to each semantic role (location, product,
    quantity, unit price) the first column, in the dataset's column order,
    whose lower-cased name contains the role's keyword. The source states
    this rule twice, once as `any(...)` plus a list comprehension in
    `analyze_inventory` and once as a for-loop with `break` in
    `mostrar_dashboard`; both are modelled here and shown to agree. */
module Resolver {
  import opened Options
  import opened Text

  /** The four roles, named by the keyword the source searches for. */
  datatype Role = Sede | Producto | Cantidad | Precio

  function Keyword(role: Role): string {
    match role
    case Sede => "sede"
    case Producto => "producto"
    case Cantidad => "cantidad"
    case Precio => "precio"
  }

  /** `keyword in col.lower()`. */
  predicate Matches(col: string, keyword: string) {
    Contains(keyword, Lower(col))
  }

  /** Column `i` matches and no earlier column does. */
  ghost predicate IsFirstMatch(cols: seq<string>, keyword: string, i: int) {
    && 0 <= i < |cols|
    && Matches(cols[i], keyword)
    && forall j :: 0 <= j < i ==> !Matches(cols[j], keyword)
  }

  /** The reference rule: `r` is absent exactly when no column matches,
      and otherwise is the first matching column. */
  ghost predicate IsResolution(cols: seq<string>, keyword: string, r: Option<string>) {
    && (r.None? <==> forall i :: 0 <= i < |cols| ==> !Matches(cols[i], keyword))
    && (r.Some? ==> exists i :: IsFirstMatch(cols, keyword, i) && cols[i] == r.value)
  }

  /** The rule determines its answer: two resolutions of the same columns
      and keyword are the same. */
  lemma ResolutionUnique(cols: seq<string>, keyword: string, a: Option<string>, b: Option<string>)
    requires IsResolution(cols, keyword, a) && IsResolution(cols, keyword, b)
    ensures a == b
  {
    if a.Some? && b.Some? {
      var i :| IsFirstMatch(cols, keyword, i) && cols[i] == a.value;
      var k :| IsFirstMatch(cols, keyword, k) && cols[k] == b.value;
    }
  }

  /** The dashboard's search: `for col in df.columns: if kw in col.lower():
      found = col; break`. */
  method FindColumn(cols: seq<string>, keyword: string) returns (found: Option<string>)
    ensures IsResolution(cols, keyword, found)
  {
    found := None;
    var k := 0;
    while k < |cols|
      invariant 0 <= k <= |cols|
      invariant forall j :: 0 <= j < k ==> !Matches(cols[j], keyword)
    {
      if Matches(cols[k], keyword) {
        found := Some(cols[k]);
        assert IsFirstMatch(cols, keyword, k);
        return;
      }
      k := k + 1;
    }
  }

  /** `[c.lower() for c in cols]`: one name per column, each as long as
      the original and with no upper-case letter left. */
  function LowerAll(cols: seq<string>): (r: seq<string>)
    ensures |r| == |cols|
    ensures forall i :: 0 <= i < |cols| ==> |r[i]| == |cols[i]|
    ensures forall i, j :: 0 <= i < |r| && 0 <= j < |r[i]| ==> !IsUpper(r[i][j])
  {
    seq(|cols|, i requires 0 <= i < |cols| => Lower(cols[i]))
  }

  /** `any(kw in c.lower() for c in cols)`. */
  function AnyMatches(cols: seq<string>, keyword: string): (b: bool)
    ensures b <==> exists i :: 0 <= i < |cols| && Matches(cols[i], keyword)
  {
    if |cols| == 0 then false
    else
      assert forall i :: 0 < i < |cols| ==> cols[i] == cols[1..][i - 1];
      Matches(cols[0], keyword) || AnyMatches(cols[1..], keyword)
  }

  /** `[col for col in cols if kw in col.lower()]`: all the matching
      columns and only those; its head is the first match. */
  function MatchingColumns(cols: seq<string>, keyword: string): (ms: seq<string>)
    ensures forall c :: c in ms ==> c in cols && Matches(c, keyword)
    ensures forall i :: 0 <= i < |cols| && Matches(cols[i], keyword) ==> cols[i] in ms
    ensures |ms| > 0 <==> exists i :: 0 <= i < |cols| && Matches(cols[i], keyword)
    ensures |ms| > 0 ==> exists i :: IsFirstMatch(cols, keyword, i) && cols[i] == ms[0]
  {
    if |cols| == 0 then []
    else
      var rest := MatchingColumns(cols[1..], keyword);
      assert forall i :: 0 < i < |cols| ==> cols[i] == cols[1..][i - 1];
      if Matches(cols[0], keyword) then
        assert IsFirstMatch(cols, keyword, 0);
        [cols[0]] + rest
      else
        assert |rest| > 0 ==> exists i :: IsFirstMatch(cols, keyword, i) && cols[i] == rest[0] by {
          if |rest| > 0 {
            var i :| IsFirstMatch(cols[1..], keyword, i) && cols[1..][i] == rest[0];
            assert IsFirstMatch(cols, keyword, i + 1);
          }
        }
        rest
  }

  /** Matching an already lower-cased name is matching the name. */
  lemma LowerAllMatches(cols: seq<string>, keyword: string)
    ensures forall i :: 0 <= i < |cols| ==> (Matches(LowerAll(cols)[i], keyword) <==> Matches(cols[i], keyword))
  {
    forall i | 0 <= i < |cols|
      ensures Matches(LowerAll(cols)[i], keyword) <==> Matches(cols[i], keyword)
    {
      LowerIdempotent(cols[i]);
    }
  }

  /** One role of `analyze_inventory`: `if any(kw in c.lower() for c in
      cols_lower): [col for col in cols if kw in col.lower()][0]`. */
  function ComprehensionForm(cols: seq<string>, keyword: string): (r: Option<string>)
    ensures IsResolution(cols, keyword, r)
  {
    LowerAllMatches(cols, keyword);
    if AnyMatches(LowerAll(cols), keyword) then
      Some(MatchingColumns(cols, keyword)[0])
    else
      None
  }

  /** The comprehension form of `analyze_inventory` and the loop-with-break
      form of the dashboard resolve every keyword to the same column, or
      both to none. */
  lemma FormsAgree(cols: seq<string>, keyword: string, loopResult: Option<string>)
    requires IsResolution(cols, keyword, loopResult)
    ensures ComprehensionForm(cols, keyword) == loopResult
  {
    ResolutionUnique(cols, keyword, ComprehensionForm(cols, keyword), loopResult);
  }

  function Lookup(m: map<Role, string>, role: Role): Option<string> {
    if role in m then Some(m[role]) else None
  }

  /** `if found: col_mapping[role] = column`: the role takes the found
      column, keeps its old entry when nothing was found, and every other
      role keeps its entry. */
  function Assign(m: map<Role, string>, role: Role, found: Option<string>): (r: map<Role, string>)
    ensures Lookup(r, role) == if found.Some? then found else Lookup(m, role)
    ensures forall other :: other != role ==> Lookup(r, other) == Lookup(m, other)
  {
    match found
    case Some(c) => m[role := c]
    case None => m
  }

  /** The dictionary built by the four `if` statements of
      `analyze_inventory`, from the four searches' outcomes. */
  function Mapping(sede: Option<string>, producto: Option<string>,
                   cantidad: Option<string>, precio: Option<string>): (m: map<Role, string>)
  {
    Assign(Assign(Assign(Assign(map[], Sede, sede), Producto, producto), Cantidad, cantidad), Precio, precio)
  }

  /** Each role's entry is its own search's outcome: the roles do not
      interfere with each other. */
  lemma MappingIndependent(sede: Option<string>, producto: Option<string>,
                           cantidad: Option<string>, precio: Option<string>)
    ensures Lookup(Mapping(sede, producto, cantidad, precio), Sede) == sede
    ensures Lookup(Mapping(sede, producto, cantidad, precio), Producto) == producto
    ensures Lookup(Mapping(sede, producto, cantidad, precio), Cantidad) == cantidad
    ensures Lookup(Mapping(sede, producto, cantidad, precio), Precio) == precio
  {
  }

  /** What a lookup in a resolution-derived dictionary tells: presence
      means some column matches, and the entry is one of the columns. */
  lemma ResolutionLookup(cols: seq<string>, keyword: string, m: map<Role, string>, role: Role)
    requires IsResolution(cols, keyword, Lookup(m, role))
    ensures role in m <==> exists i :: 0 <= i < |cols| && Matches(cols[i], keyword)
    ensures role in m ==> m[role] in cols && Matches(m[role], keyword)
  {
    if role in m {
      var i :| IsFirstMatch(cols, keyword, i) && cols[i] == m[role];
    }
  }

  lemma MappingResolves(cols: seq<string>, s: Option<string>, p: Option<string>,
                        c: Option<string>, q: Option<string>)
    requires IsResolution(cols, Keyword(Sede), s) && IsResolution(cols, Keyword(Producto), p)
    requires IsResolution(cols, Keyword(Cantidad), c) && IsResolution(cols, Keyword(Precio), q)
    ensures forall role :: IsResolution(cols, Keyword(role), Lookup(Mapping(s, p, c, q), role))
  {
    MappingIndependent(s, p, c, q);
    forall role ensures IsResolution(cols, Keyword(role), Lookup(Mapping(s, p, c, q), role)) {
      match role
      case Sede =>
      case Producto =>
      case Cantidad =>
      case Precio =>
    }
  }

  /** `analyze_inventory`'s column mapping: each role is present exactly
      when some column matches its keyword, and then maps to the first
      such column; the roles are resolved independently. */
  function AnalyzeInventory(cols: seq<string>): (m: map<Role, string>)
    ensures forall role :: IsResolution(cols, Keyword(role), Lookup(m, role))
    ensures forall role :: role in m <==> exists i :: 0 <= i < |cols| && Matches(cols[i], Keyword(role))
    ensures forall role :: role in m ==> m[role] in cols && Matches(m[role], Keyword(role))
  {
    var m := Mapping(ComprehensionForm(cols, Keyword(Sede)), ComprehensionForm(cols, Keyword(Producto)),
                     ComprehensionForm(cols, Keyword(Cantidad)), ComprehensionForm(cols, Keyword(Precio)));
    MappingResolves(cols, ComprehensionForm(cols, Keyword(Sede)), ComprehensionForm(cols, Keyword(Producto)),
                    ComprehensionForm(cols, Keyword(Cantidad)), ComprehensionForm(cols, Keyword(Precio)));
    assert forall role :: (role in m <==> exists i :: 0 <= i < |cols| && Matches(cols[i], Keyword(role)))
                          && (role in m ==> m[role] in cols && Matches(m[role], Keyword(role))) by {
      forall role ensures (role in m <==> exists i :: 0 <= i < |cols| && Matches(cols[i], Keyword(role)))
                          && (role in m ==> m[role] in cols && Matches(m[role], Keyword(role))) {
        ResolutionLookup(cols, Keyword(role), m, role);
      }
    }
    m
  }

  /** A column that matches a role's keyword has a non-empty name, so the
      dashboard's truthiness test `if col_sede:` on a found column is the
      same as "the role was resolved". */
  lemma ResolvedNameNonEmpty(col: string, role: Role)
    requires Matches(col, Keyword(role))
    ensures |col| >= |Keyword(role)| > 0
  {
    ContainsNonEmpty(Keyword(role), Lower(col));
  }

  /** A column whose name, lower-cased, starts at position `at` with the
      keyword matches that keyword. */
  lemma MatchesAt(col: string, keyword: string, at: nat)
    requires at + |keyword| <= |col|
    requires forall i :: 0 <= i < |keyword| ==> LowerChar(col[at + i]) == keyword[i]
    ensures Matches(col, keyword)
  {
    var l := Lower(col);
    assert l[at..at + |keyword|] == keyword;
    assert OccursAt(keyword, l, at);
  }

  /** A column literally named "Sede" always resolves the location role,
      to itself or to an earlier column that also contains "sede". */
  lemma SedeColumnResolves(cols: seq<string>, k: nat)
    requires k < |cols| && cols[k] == "Sede"
    ensures Sede in AnalyzeInventory(cols)
    ensures AnalyzeInventory(cols)[Sede] == "Sede" || exists j :: 0 <= j < k && cols[j] == AnalyzeInventory(cols)[Sede]
  {
    MatchesAt(cols[k], "sede", 0);
    var m := AnalyzeInventory(cols);
    assert IsResolution(cols, Keyword(Sede), Lookup(m, Sede));
    var i :| IsFirstMatch(cols, "sede", i) && cols[i] == m[Sede];
    assert i <= k;
  }

  lemma PrecioUnitarioMatches()
    ensures Matches("Precio_Unitario", "precio")
  {
    MatchesAt("Precio_Unitario", "precio", 0);
  }

  /** A column named "Precio_Unitario" resolves the price role when no
      earlier column contains "precio". */
  lemma PrecioUnitarioResolves(cols: seq<string>, k: nat)
    requires k < |cols| && cols[k] == "Precio_Unitario"
    requires forall j :: 0 <= j < k ==> !Matches(cols[j], "precio")
    ensures Precio in AnalyzeInventory(cols) && AnalyzeInventory(cols)[Precio] == "Precio_Unitario"
  {
    PrecioUnitarioMatches();
    FirstMatchResolves(cols, Precio, k);
  }

  /** The first matching column is the one `analyze_inventory` records. */
  lemma FirstMatchResolves(cols: seq<string>, role: Role, k: nat)
    requires IsFirstMatch(cols, Keyword(role), k)
    ensures role in AnalyzeInventory(cols) && AnalyzeInventory(cols)[role] == cols[k]
  {
    var m := AnalyzeInventory(cols);
    assert IsResolution(cols, Keyword(role), Lookup(m, role));
    ResolutionUnique(cols, Keyword(role), Lookup(m, role), Some(cols[k]));
  }

  /** The location role need not pick a column literally named "Sede":
      an earlier column such as "Subsede" wins. */
  lemma EarlierSubstringWins()
    ensures Sede in AnalyzeInventory(["Subsede", "Sede"])
    ensures AnalyzeInventory(["Subsede", "Sede"])[Sede] == "Subsede"
  {
    var cols := ["Subsede", "Sede"];
    MatchesAt(cols[0], "sede", 3);
    FirstMatchResolves(cols, Sede, 0);
  }
}
