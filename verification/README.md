# Inventory dashboard: column resolver and aggregator

This project models the decision logic of a single-page inventory dashboard
(`Pagina/app.py`). A user uploads a workbook, picks a sheet, and the page
shows statistics about it. Two pure parts decide what is shown.

- **Column resolver.** Each semantic role gets a column: location (`sede`),
  product (`producto`), quantity (`cantidad`) and unit price (`precio`).
  The rule is the same for every role. Lower-case each column name and take
  the first column, in the sheet's order, whose name contains the role's
  keyword. A role with no such column is absent. The source states this rule
  twice. `analyze_inventory` uses `any(...)` plus a list comprehension. The
  dashboard uses a for-loop that breaks on the first match. Both are
  modelled (`Resolver.ComprehensionForm`, `Resolver.FindColumn`) and proved
  to agree (`Resolver.FormsAgree`).
- **Aggregator.** It computes:
  - the number of distinct locations;
  - the ten most frequent products;
  - the stock total, maximum and minimum of a numeric quantity column;
  - the per-location comparison table, with the locations holding the most
    and the least stock.

`Dashboard.ShowDashboard` puts the parts together as `mostrar_dashboard`
does. Its contract states every panel against the mapping that
`analyze_inventory` computes. So the two forms of the resolver are tied
together end to end, even though the application itself never calls
`analyze_inventory`.

Modules, one file each:

- `options.dfy`: `Options`, the optional value.
- `text.dfy`: `Text`, ASCII lower-casing and substring containment.
- `seqs.dfy`: `Seqs`, counts, first-appearance de-duplication, and sum, max and min.
- `resolver.dfy`: `Resolver`.
- `table.dfy`: `Table`, the sheet as columns and rows of cells.
- `aggregator.dfy`: `Aggregator`.
- `dashboard.dfy`: `Dashboard`.

A cell is `Num(int)` or `Str(string)`. A quantity column counts as numeric,
the `int64`/`float64` test of line 166, when every one of its cells is a
number.

One might expect a column literally named "Sede" always to become the
location column. The code does not promise that: an earlier column whose
name merely contains "sede" wins instead (`Resolver.EarlierSubstringWins`),
and the model follows the code. What is guaranteed is
that the location role is then resolved (`Resolver.SedeColumnResolves`).

## Model

| member | source | states |
|---|---|---|
| `Text.Lower` | Pagina/app.py:40 | the model of `str.lower()` keeps the length, lower-cases each ASCII letter, and leaves no upper-case letter |
| `Text.LowerIdempotent` | Pagina/app.py:40-42 | lower-casing the already lower-cased names a second time, as the `any(...)` test does, changes nothing |
| `Text.Contains` | Pagina/app.py:42 | `kw in name` holds exactly when the keyword occurs at some position of the name |
| `Text.ContainsNonEmpty` | Pagina/app.py:42 | a name that contains a non-empty keyword is at least as long as the keyword |
| `Seqs.Unique` | Pagina/app.py:112 | `unique()` returns each value of the column exactly once, and nothing else; its order of first appearance comes from the definition and is not stated in the contract |
| `Seqs.UniqueCount` | Pagina/app.py:112-113 | the length of `unique()` is the number of distinct values in the column |
| `Seqs.Max` | Pagina/app.py:174 | the maximum bounds every quantity from above and is one of them |
| `Seqs.Min` | Pagina/app.py:176 | the minimum bounds every quantity from below and is one of them |
| `Seqs.SumBetweenBounds` | Pagina/app.py:170-176 | when every quantity lies in [lo, hi], the total lies in [n·lo, n·hi] |
| `Resolver.LowerAll` | Pagina/app.py:40 | `df_cols_lower` has one name per column, each as long as the original name and with no upper-case letter left |
| `Resolver.LowerAllMatches` | Pagina/app.py:40-42 | testing a keyword against a name of `df_cols_lower` gives the same answer as testing it against the original name |
| `Resolver.FindColumn` | Pagina/app.py:101-106 | the for-loop with `break` returns the first column, in order, whose lower-cased name contains the keyword, and returns none when no name contains it |
| `Resolver.ResolutionUnique` | Pagina/app.py:42-49 | the first-match rule has one answer: two results that both obey it are equal |
| `Resolver.AnyMatches` | Pagina/app.py:42 | `any(kw in c.lower() for c in cols)` holds exactly when some column matches |
| `Resolver.MatchingColumns` | Pagina/app.py:43 | the comprehension keeps every matching column and only those; it is non-empty exactly when some column matches, and its head is the first match |
| `Resolver.ComprehensionForm` | Pagina/app.py:42-43 | the `any` test plus `[...][0]` returns the first matching column, or none when no column matches |
| `Resolver.FormsAgree` | Pagina/app.py:42-47 | every result of the loop form (lines 103-106, 138-141, 161-164) equals the comprehension form's result for the same columns and keyword |
| `Resolver.Assign` | Pagina/app.py:42-49 | one `if found: col_mapping[role] = column` step: the role gets the found column, keeps its entry when nothing is found, and every other role keeps its entry |
| `Resolver.Mapping` | Pagina/app.py:42-49 | `col_mapping`, defined as the four `Assign` steps applied in order to an empty dictionary; `Resolver.MappingIndependent` states what it holds |
| `Resolver.MappingIndependent` | Pagina/app.py:39-49 | each role's dictionary entry is exactly that role's own search result, so the four roles do not interfere |
| `Resolver.AnalyzeInventory` | Pagina/app.py:31-51 | a role is in the mapping exactly when some column name contains its keyword, and then it maps to the first such column of the dataset |
| `Resolver.FirstMatchResolves` | Pagina/app.py:42-49 | when column k is the first to contain a role's keyword, the mapping sends that role to column k |
| `Resolver.ResolvedNameNonEmpty` | Pagina/app.py:108 | a column that matches a role's keyword has a non-empty name, so the truthiness test `if col_sede:` means "the role was resolved" |
| `Resolver.SedeColumnResolves` | Pagina/app.py:42-43 | a column named "Sede" always resolves the location role, to itself or to an earlier column |
| `Resolver.PrecioUnitarioResolves` | Pagina/app.py:48-49 | "Precio_Unitario" is the price column when no earlier name contains "precio", because the price role is keyed `precio` |
| `Resolver.EarlierSubstringWins` | Pagina/app.py:42-43 | with columns "Subsede", "Sede", the location role resolves to "Subsede" |
| `Table.IsEmpty` | Pagina/app.py:88 | `df.empty`, defined as: the sheet has no rows or no columns |
| `Table.Column` | Pagina/app.py:112 | `df[c]` (also at lines 144 and 166): one cell per row, each the row's cell under the first column named `c` |
| `Table.IsNumeric` | Pagina/app.py:166 | the dtype test `in ['int64', 'float64']`, defined as: every cell is `Num`, standing for dtype int64 |
| `Seqs.Sum` | Pagina/app.py:170 | `.sum()` (also the groupby `'sum'` at line 194 and line 226), defined as the sum of the integers, with no int64 wrap-around |
| `Aggregator.ValueCounts` | Pagina/app.py:144 | `value_counts()`, defined as each distinct value paired with its count, sorted by decreasing count; its properties are those of `Aggregator.ValueCountsFacts` |
| `Aggregator.Mean` | Pagina/app.py:172 | `.mean()` (also the groupby `'mean'` at line 194) as a real number: multiplied by the count, the mean gives back the total |
| `Aggregator.DistinctCount` | Pagina/app.py:112-113 | "Total de Sedes" equals the number of distinct values in the location column |
| `Aggregator.SortByCount` | Pagina/app.py:144 | sorting the counts gives a permutation of them with non-increasing counts |
| `Aggregator.ValueCountsFacts` | Pagina/app.py:144 | `value_counts()` lists every value of the column once, with its true number of occurrences, and its counts never increase |
| `Aggregator.Top` | Pagina/app.py:144 | the top list has at most 10 entries with non-increasing counts; each listed product appears once with its occurrence count; an unlisted product occurs no more often than any listed one, and only when the list is full |
| `Aggregator.Stock` | Pagina/app.py:166-176 | stock figures exist exactly when the quantity column is numeric; the total is the sum of all quantities, and min ≤ every quantity ≤ max, with both bounds attained |
| `Aggregator.MeanWithinBounds` | Pagina/app.py:172 | "Stock Promedio", as a real number, lies between the minimum and the maximum |
| `Aggregator.GroupBy` | Pagina/app.py:194 | the groupby gives one row per distinct location, its locations listed as `Seqs.Unique` lists them (first-appearance order, by that definition); each row's count is the number of records at that location and its total is the sum of their quantities |
| `Aggregator.AddRecordSums` | Pagina/app.py:194 | folding one record into the table adds its quantity to the table's total and one to its record count |
| `Aggregator.SumTotals` | Pagina/app.py:226 | `comparativa['Stock Total'].sum()`, defined as the sum of the rows' totals; `Aggregator.GroupByPreservesTotals` proves it equals the sum of all quantities |
| `Aggregator.GroupByPreservesTotals` | Pagina/app.py:226 | the row totals add up to the sum of all quantities ("Stock Combinado"), and the row counts to the number of records |
| `Aggregator.GroupBySize` | Pagina/app.py:225 | the table has as many rows as there are distinct locations |
| `Aggregator.IdxMax` | Pagina/app.py:198 | `idxmax` picks a row whose total is ≥ every row's total; every earlier row has a strictly smaller total, so ties go to the first row |
| `Aggregator.IdxMin` | Pagina/app.py:199 | `idxmin` picks a row whose total is ≤ every row's total; every earlier row has a strictly larger total, so ties go to the first row |
| `Aggregator.Compare` | Pagina/app.py:190-199 | the comparison panel holds the grouped table, the first most-stocked and first least-stocked rows, and a combined stock equal to the sum of all quantities |
| `Dashboard.ShowDashboard` | Pagina/app.py:77-199 | an empty sheet shows nothing. Otherwise each panel is present exactly when `analyze_inventory` resolves its roles (plus a numeric quantity column for the stock and comparison panels), and each panel obeys the properties above. The comparison table's row count equals "Total de Sedes" |
| `Dashboard.ComparisonExample` | Pagina/app.py:194-199 | records (A,10), (A,20), (B,5) give rows A: total 30, count 2, mean 15 and B: total 5, count 1, mean 5; A has the most stock and B the least |

## Left out

- `load_excel_file` (lines 16-29): it reads the workbook through pandas and turns any parse failure into an on-screen error. This is foreign I/O. `Dashboard.ShowDashboard` takes the loaded sheets as a map and the selected sheet name as a parameter, since the user makes the choice in a select box.
- The Streamlit UI and its plumbing: session state, CSS, the upload widget, the plotly and matplotlib charts (including the per-location bar chart of line 124 and the histogram), the data preview and the CSV download. These are rendering only.
- The `:,.0f` number formatting. The mean is kept only as a real quotient (`Aggregator.Mean`); float64 quantities are not modelled, and quantities are integers.
- Quantities are unbounded integers. pandas keeps an all-integer column as int64, and its sums at lines 170, 194 and 226 wrap silently past 2^63−1. That wrap is not modelled: `Aggregator.Stock`, `Aggregator.GroupBy` and `Aggregator.Compare` return the true totals.
- Missing cells and pandas' NaN handling: NaN group keys are dropped by `groupby`, and `count` counts only non-null cells. Every cell here holds a value.
- Aggregator.GroupBy: rows come in order of first appearance. pandas' `groupby` sorts the group keys, and that order is not modelled. As a result, the tie-break "first row" in `IdxMax`/`IdxMin` refers to first-appearance order.
- Aggregator.Top: the order among products with equal counts is not specified. pandas' `value_counts` has its own tie order; the model states only the non-increasing order.
- Dashboard.ShowDashboard: builds the comparison only when the quantity column is numeric. The source's condition at line 190 does not test the dtype. For a text quantity column, pandas would concatenate strings in `sum` and fail in `mean`. That path is not modelled.
- Text.Lower: lower-cases ASCII letters only, and keeps the length. Python's `str.lower()` also lower-cases non-ASCII letters, and can change the length: `'İ'.lower()` is two code points. Only two non-ASCII characters lower-case to an ASCII letter. `İ` gives `i` followed by U+0307, and the Kelvin sign gives `k`. Neither can complete `sede`, `producto`, `cantidad` or `precio`: `İ` leaves a combining mark after the `i`, and none of the keywords contains a `k`. So the ASCII-only lower-casing gives the same match results as Python for these keywords.
- Columns whose names are not strings, and repeated column names, are not modelled. For a repeated name, `df[c]` returns a frame; `Table.Column` takes the first column with that name.
- The unused `required_columns` list (line 36) has no effect and is not modelled.
- `Pagina/instalador.py` is not part of this model. It installs dependencies through pip, reads files, runs another script and exits: installation plumbing with no logic to state.
