# Wealth analytics dashboard: filters, concentration, deciles, Lorenz curve and Gini

This project models the computational core of a single-page Streamlit
dashboard (`app.py`) in Dafny. The dashboard reads a table of customer
accounts from DuckDB and summarises wealth concentration over the accounts
that survive a set of filters. The model covers:

- **Filters** (`SqlLiteral`, `WhereClause`). `sql_in` doubles single quotes
  and renders a parenthesised IN list. `build_where_clause` joins one
  `column IN (...)` condition per non-empty selection with ` AND ` behind
  `WHERE `, or returns the empty string when nothing is selected. A parser
  serves as the partner: it reads the clause back, and the model proves the
  round trip.
- **Top-10% concentration** (`TopShare`). `wealth_q` ranks the balances
  largest first. It adds up the first `CEIL(n * 0.10)` ranks and returns the
  total, the top sum, and their ratio. The ratio is NULL on a zero total, and
  the query returns no row at all on an empty filter result.
- **Balance deciles** (`Ntile`, `Deciles`). `NTILE(10)` assigns buckets to
  the ranking, and `GROUP BY decile` aggregates COUNT, MIN, AVG, MAX and SUM
  per bucket. The model proves two facts about this:
  - the buckets are consecutive slices of the ranking;
  - the table partitions the accounts and the total, in decreasing order.
- **Lorenz curve** (`Lorenz`). The query drops NULL and negative balances,
  sorts ascending, and numbers the rows. It computes the running sum and
  emits `(rn/n, cum/total)` per row. The model proves:
  - the query equals a closed form over the sorted balances;
  - the curve's shape: increasing, under the diagonal, ending at (1, 1);
  - invariance under scaling every balance by a positive factor;
  - the exact condition under which the dashboard shows "not enough data".
- **Gini coefficient** (`Gini`). The dashboard prepends the origin, then
  multiplies each wealth share by the population step. This is a
  right-endpoint Riemann sum. Products with a NULL share are NaN and skipped
  by the sum. The coefficient is `1 - 2 * area`.

Balances are exact reals. `Option` stands for SQL NULL. The two ORDER BY
clauses are functional insertion sorts. `DescendingUnique` shows that any two
descending arrangements of the same balances are the same sequence, and the
ascending ranking is the reverse of the descending one, so how the engine
breaks ties cannot change any result.

The model follows app.py as written:

- the top-10% share is NULL on a zero total;
- the Gini coefficient is the right-endpoint sum, and it is not clamped (the
  caption at app.py:343-346 says 0..1, see ## Findings);
- only non-empty deciles produce rows;
- only the Lorenz query drops NULL and negative balances.

## Model

| member | source | states |
|---|---|---|
| SqlLiteral.Escape | app.py:41 | the escaped value is one character longer per quote, has every quote doubled, and uses exactly the value's characters |
| SqlLiteral.Unescape | app.py:41 | undoubling succeeds exactly on text whose quotes all come in pairs |
| SqlLiteral.UnescapeEscape | app.py:41 | undoubling the escaped value gives the value back |
| SqlLiteral.EscapeUnescape | app.py:41 | every text with paired quotes is the escape of the value it decodes to, so escaping is a bijection onto such texts |
| SqlLiteral.SqlIn | app.py:40-42 | the IN list opens with `(` and closes with `)` |
| SqlLiteral.SqlInShape | app.py:40-42 | item i of the IN list is quoted, its quotes are paired, and it un-doubles to the i-th value; the list is `()` exactly when nothing is selected |
| SqlLiteral.ReadInListSqlIn | app.py:40-42 | reading an IN list back recovers exactly the listed values, in order, and leaves the text after it untouched |
| WhereClause.Conditions | app.py:46-55 | a selection yields a condition exactly when it is non-empty; conditions keep the order risk, region, account type; none has an empty list |
| WhereClause.BuildWhereClause | app.py:45-60 | the clause is empty exactly when all three selections are empty, and otherwise starts with `WHERE ` |
| WhereClause.ValuesOfConditions | app.py:46-55 | each column's condition carries exactly that column's selection |
| WhereClause.ReadWhereBuild | app.py:45-60 | parsing the built clause recovers the three selections (round trip) |
| Ranking.DescendingUnique | app.py:196 | two descending arrangements of the same multiset of balances are equal |
| Ranking.RankingIsSort | app.py:196 | any descending permutation of the balances is the sorted ranking |
| Ranking.SumPermutation | app.py:198 | a sum over the balances does not depend on their order |
| Ranking.AscendingScale | app.py:291 | scaling by a positive factor commutes with the ascending sort |
| TopShare.TopCountIsCeiling | app.py:204 | CEIL(n * 0.10) is the least whole count of at least 10% of n, and lies in 1..n when n >= 1 |
| TopShare.Wealth | app.py:187-213 | no row exactly on an empty filter result; the total is the sum of the balances; the share is NULL exactly when the total is 0 |
| TopShare.TopBalanceIsLargest | app.py:193-206 | top_10_balance is the sum of the CEIL(n/10) largest balances |
| TopShare.LargestProportional | app.py:193-206 | the k largest balances hold at least k/n of the total: n * top >= k * total |
| TopShare.TopBounds | app.py:201-211 | with non-negative balances, 0 <= top_10_balance <= total_balance and a non-NULL share lies in [0.1, 1] |
| Ntile.NtileInItsTile | app.py:233 | NTILE(10) gives every row a bucket in 1..10 whose slice contains it |
| Ntile.NtileInTile | app.py:233 | a row gets bucket d if and only if it lies in the d-th consecutive slice |
| Ntile.TileSizes | app.py:233 | bucket d holds n/10 + 1 rows when d <= n % 10 and n/10 otherwise; it is non-empty iff d <= n; bucket 1 holds CEIL(n/10) rows |
| Ntile.TilesDisjoint | app.py:233 | no row lies in two buckets |
| Deciles.DecileCount | app.py:224-246 | the table has min(n, 10) rows |
| Deciles.DecileShape | app.py:236-245 | row j is decile j + 1 and counts as many accounts as its NTILE bucket holds |
| Deciles.DecileSizes | app.py:236-245 | the accounts per decile follow the NTILE split; with fewer than ten balances each decile holds one account |
| Deciles.DecilesPartition | app.py:236-245 | the account counts add up to n and the decile totals add up to the total balance |
| Deciles.FirstDecileIsTop | app.py:224-246 | decile 1 holds CEIL(n/10) accounts, and its total equals the top_10_balance of the concentration query |
| Deciles.AggregateMean | app.py:238-242 | a group's AVG times its COUNT is its SUM |
| Deciles.AggregateBounds | app.py:238-242 | a group's MIN <= AVG <= MAX |
| Deciles.DecileAverages | app.py:236-245 | in every row of the table, min <= avg <= max |
| Deciles.DecileTableSlices | app.py:224-246 | the GROUP BY table equals the aggregates of consecutive slices of the ranking |
| Deciles.DecileOrder | app.py:233 | for any two of the min(n, 10) deciles, the earlier (richer) one's minimum is at least the later one's maximum |
| Lorenz.Eligible | app.py:281-287 | the filtered column holds no negative balance and is no longer than the input |
| Lorenz.EligibleCount | app.py:285-286 | each non-negative balance is kept as often as it occurs; NULLs and negative balances are dropped |
| Lorenz.EligibleEmpty | app.py:285-286 | nothing survives exactly when every entry is NULL or negative |
| Lorenz.Drawn | app.py:291 | the drawn balances are ascending, non-negative, and a permutation of the filtered balances with the same length and total |
| Lorenz.RunningSumIsPrefix | app.py:296-302 | the running SUM OVER (ORDER BY rn) at row rn adds up the rn smallest balances |
| Lorenz.LorenzIsPoints | app.py:280-311 | row i of the query is (i+1, n, (i+1)/n, C_{i+1}/total) over the ascending balances, where C_k is the sum of the k smallest balances |
| Lorenz.LorenzShape | app.py:304-307 | rows are numbered 1..n in order, n is the row count, and the population share is rn/n |
| Lorenz.PopShareIncreasing | app.py:307 | population shares rise strictly within (0, 1] |
| Lorenz.WealthShareNull | app.py:308 | a wealth share is NULL exactly when the total is 0 |
| Lorenz.TotalZero | app.py:308 | the total is 0 exactly when every drawn balance is 0 |
| Lorenz.WealthShareRising | app.py:308 | wealth shares never decrease along the curve |
| Lorenz.WealthBelowPopulation | app.py:304-310 | every point lies on or under the diagonal: 0 <= wealth share <= population share |
| Lorenz.LastPoint | app.py:304-310 | with a non-zero total the last point is (1, 1) |
| Lorenz.GuardIffEmpty | app.py:315 | the "not enough data" branch is taken exactly when no balance survives, that is when every entry is NULL or negative |
| Lorenz.LorenzScaleInvariant | app.py:280-311 | multiplying every balance by c > 0 leaves the query result unchanged |
| Gini.GiniClosedForm | app.py:318-331 | on the closed-form points the coefficient is 1 - 2 * (y_1 + ... + y_n) / n |
| Gini.GiniRightEndpoint | app.py:318-331 | with a non-zero total the dashboard's coefficient is 1 - 2 * (y_1 + ... + y_n) / n over the wealth shares y_i |
| Gini.GiniBounds | app.py:318-331 | with a non-zero total there is a coefficient, and it lies in [-1/n, 1 - 2/n] |
| Gini.GiniScaleInvariant | app.py:318-331 | multiplying every balance by c > 0 leaves the coefficient unchanged |
| Gini.ZeroTotalGini | app.py:318-331 | when the drawn balances total 0 every product is NaN and skipped, so the coefficient is 1 |
| Gini.EqualBalancesGini | app.py:318-331 | n equal positive balances give exactly -1/n, which is below 0 |
| Gini.TrapezoidShift | app.py:318-331 | the trapezoid-rule coefficient is the dashboard's coefficient plus 1/n |
| Gini.TrapezoidBounds | app.py:343-346 | the trapezoid-rule coefficient lies in [0, 1 - 1/n] |
| Gini.EqualBalancesTrapezoid | app.py:343-346 | under the trapezoid rule, n equal positive balances give 0, perfect equality |

## Left out

- The Streamlit layout, widgets, metrics, charts, tables and captions are not modelled. The model covers only the value the Gini caption promises.
- The DuckDB connection (`get_con`), the filter options loaded from the table (`load_filter_options`) and the overview and risk-profile aggregate queries are not modelled. These are I/O and plain aggregates outside the core.
- The `fmt_money`, `fmt_pct` and `fmt_pct_from_rate` display formatters are not modelled. They are presentation only.
- IEEE double rounding is not modelled. Balances, shares and the area are exact reals, and `rn::DOUBLE / n` is exact division.
- NULL and negative balances are not modelled in the top-10% and decile queries. Those queries take a list of non-NULL reals, and their bounds lemmas assume non-negative balances.
- Injection safety of the WHERE clause is not modelled. The filter values come from the app's own selection lists, and the model states only the quoting round trip.
- Deciles.DecileAverages: states min <= avg <= max per row but not AVG * COUNT = SUM per row. Deciles.AggregateMean states that on each group's aggregate, and Deciles.DecileTableSlices says every row is such an aggregate.
- Gini.ZeroTotalGini: models the NaN products as skipped terms, which is what the pandas sum does, rather than as IEEE NaN arithmetic.

## Findings

| source | as written | input that shows it | evidently intended | confidence | as-written member | corrected member |
|---|---|---|---|---|---|---|
| app.py:328-331 | the area is a right-endpoint sum, so the coefficient 1 - 2 * area lies in [-1/n, 1 - 2/n]; the caption at app.py:343-346 says it ranges from 0 (perfect equality) to 1 | ten accounts with balance 100 each: every wealth share equals its population share, the area is 0.55 and the coefficient is -0.1 | the trapezoid rule, whose coefficient is 0 for equal balances and lies in [0, 1 - 1/n] | not executed | Gini.EqualBalancesGini | Gini.TrapezoidBounds |
