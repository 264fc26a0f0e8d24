# Web tree and order cleaning rules, modelled in Dafny

This project models two small pieces of logic from a set of pandas scripts and proves properties of them.

- **Web_TREE column** (`Assignment4_Webtree.py`). A module-level dictionary maps each BRAND_ID to the list of PARENT_CATEGORY_IDs seen so far for that brand. `generate_web_tree` appends one id to its brand's list and returns the list joined with `_`. The script applies it to the rows in order. The model is a class `WebTree.BrandTable` whose `trees: map<B, seq<string>>` field its methods update in place. Pure functions describe the state after a run: `Replay` gives the table and `Column` gives the returned strings. Lemmas relate both to each brand's row history.
- **Order cleaning rules** (`Assignment3.py`). The model covers duplicate removal (keep first), the `ProdA` typo, the quantity floor, the positive-price filter, the category canonical form, the IsPromo flag, the most common pair of adjacent promo codes, and the "suspicious order" flag. Each rule is a pure function over a `seq<Order>`. The `Order` datatype is taken to be the whole row, because duplicate removal compares every column. Price is an exact number (`real`), and a missing cell is `None`.

Modules: `Wrappers` and `Seqs` (seqs.dfy) hold Option, distinctness, first occurrences and duplicate removal. `WebTree` (webtree.dfy), `OrderCleaning` (cleaning.dfy), `PromoSequences` (promo.dfy) and `SuspiciousOrders` (suspicious.dfy) follow the source's structure.

Where the header comment of a step and its code differ, the model follows the code. Line 24's comment says negative quantities are replaced, but `max(x, 1)` also turns 0 into 1. Line 27's comment says negative prices are dropped, but `> 0` also drops a zero price.

## Model

| member | source | states |
|---|---|---|
| WebTree.BrandTable.constructor | Assignment4_Webtree.py:16-17 | the table starts empty |
| WebTree.BrandTable.Generate | Assignment4_Webtree.py:20-28 | the brand's list becomes its old list (empty for a new brand) with the id appended at the end; every other entry is unchanged; the result is the underscore join of the new list; for a new brand the result is the id itself; for a known brand it is the join of the old list, `_`, then the id |
| WebTree.BrandTable.ApplyRows | Assignment4_Webtree.py:32 | calling `generate_web_tree` row by row leaves the table equal to `Replay` of the old table over the rows; the returned column equals `Column` over the rows |
| WebTree.WebTreeColumn | Assignment4_Webtree.py:17-32 | starting from an empty table, row i's Web_TREE is the join of the PARENT_CATEGORY_IDs of all rows 0..i that have row i's BRAND_ID, in row order |
| WebTree.ReplayLookup | Assignment4_Webtree.py:22-26 | after a run, each brand's list is its list before the run followed by the ids of that brand's rows, in row order |
| WebTree.ReplayKeys | Assignment4_Webtree.py:22-26 | a run removes no brand; it adds exactly the brands that occur in the rows |
| WebTree.ColumnAt | Assignment4_Webtree.py:28-32 | row i's returned string joins its brand's earlier list with the ids of that brand's rows 0..i |
| WebTree.Join | Assignment4_Webtree.py:28 | the empty list joins to the empty string; otherwise the result starts with the first id, and with two or more ids the next character is `_` |
| WebTree.JoinSnoc | Assignment4_Webtree.py:26-28 | appending an id to a non-empty list extends the joined string by `_` and that id |
| WebTree.SplitJoin | Assignment4_Webtree.py:28 | if no id contains `_`, splitting a joined non-empty list on `_` gives the list back |
| WebTree.WebTreeOfFirstRow | Assignment4_Webtree.py:22-28 | the first row of a brand gets exactly its own PARENT_CATEGORY_ID |
| WebTree.WebTreeExtendsPrevious | Assignment4_Webtree.py:26-28 | a later row of a brand gets the previous Web_TREE of that brand, then `_`, then its own id |
| OrderCleaning.DropDuplicates | Assignment3.py:17-18 | the result has no two equal rows; every input row still occurs in it and it holds nothing else; rows appear in the order of their first occurrence |
| Seqs.DedupKeepsFirstOccurrenceOrder | Assignment3.py:18 | duplicate removal keeps the values in order of their first occurrence |
| Seqs.DedupOfDistinct | Assignment3.py:18 | a table with no duplicate rows is unchanged |
| Seqs.DedupIdempotent | Assignment3.py:18 | removing duplicates a second time changes nothing |
| OrderCleaning.FixProduct | Assignment3.py:20-21 | the result is never "ProdA"; any value other than "ProdA" is unchanged; the result is "Product A" exactly when the input is "ProdA" or "Product A" (whole-value match) |
| OrderCleaning.FixProducts | Assignment3.py:21 | every row's product is fixed and no other column changes |
| OrderCleaning.ClampQuantity | Assignment3.py:24-25 | the result is at least 1; a quantity of at least 1 is unchanged; a quantity below 1, zero included, becomes 1 |
| OrderCleaning.ClampQuantities | Assignment3.py:25 | every row's quantity is clamped and no other column changes |
| OrderCleaning.KeepPositivePrice | Assignment3.py:27-28 | every kept row has a positive price and comes from the input |
| OrderCleaning.KeepPositivePriceCount | Assignment3.py:28 | a row with a positive price is kept as often as it occurs in the input; any other row, zero price included, is dropped |
| OrderCleaning.KeepPositivePriceAppend | Assignment3.py:28 | the filter keeps row order: filtering a concatenation filters each part |
| OrderCleaning.Lower | Assignment3.py:34 | same length; no upper-case letter remains; each character is lower-cased |
| OrderCleaning.Capitalize | Assignment3.py:36 | same length; the first character is upper-cased and the rest lower-cased |
| OrderCleaning.CanonicalCategory | Assignment3.py:34-36 | the result lower-cases to the lower-cased input, with "eletronics" repaired; its first character is not a lower-case letter; nothing after it is upper case |
| OrderCleaning.CanonicalCategoryIgnoresCase | Assignment3.py:34-36 | two values that lower-case alike get the same category |
| OrderCleaning.ElectronicsVariants | Assignment3.py:34-36 | every casing of "electronics" or "eletronics" ends as "Electronics" |
| OrderCleaning.CanonicalCategoryIdempotent | Assignment3.py:34-36 | cleaning an already cleaned category changes nothing |
| OrderCleaning.CleanCategories | Assignment3.py:34-36 | every row's category is replaced by its canonical form and no other column changes |
| OrderCleaning.IsPromo | Assignment3.py:49 | the flag is 0 or 1, and it is 1 exactly when a promo code is present |
| OrderCleaning.AddPromoFlags | Assignment3.py:49 | every order is kept unchanged, paired with its IsPromo flag |
| OrderCleaning.CleanRowsWellFormed | Assignment3.py:18-49 | after all the steps, every row has quantity at least 1, a positive price, no "ProdA", a category already in canonical form, and an IsPromo flag matching its promo code; the table did not grow |
| OrderCleaning.CleanedRowsComeFromInput | Assignment3.py:18-49 | the cleaned rows are exactly the cleaned forms of the input rows with a positive price |
| OrderCleaning.Clean | Assignment3.py:18-49 | the steps at lines 18, 21, 25, 28, 34-36 and 49 in that order; the table does not grow, every row has a positive price, and its IsPromo flag is that of its promo code |
| OrderCleaning.CleanedTableMayRepeatRows | Assignment3.py:17-21 | duplicates are dropped before the typo fix, so a table without duplicate rows can yield a cleaned table that has some |
| PromoSequences.PromoPairs | Assignment3.py:151 | one pair per adjacent pair of rows (none for fewer than two rows); pair i is row i's code followed by row i+1's code |
| PromoSequences.PairMultiplicity | Assignment3.py:151 | a pair occurs among the zipped pairs exactly as often as it occurs in two adjacent rows |
| PromoSequences.PairCounts | Assignment3.py:151 | each pair's count is its number of occurrences in adjacent rows; a pair with a count occurs in two adjacent rows, and every adjacent pair has a count; the counts total max(n-1, 0) |
| PromoSequences.FirstMostCommon | Assignment3.py:152 | the chosen key's count is at least every key's count; every key before it has a smaller count |
| PromoSequences.MostCommonPromo | Assignment3.py:152 | the result is None exactly when there are fewer than two rows; otherwise it is a pair that occurs, reported with its count, which is positive |
| PromoSequences.MostCommonPromoSpec | Assignment3.py:151-152 | the result is None exactly when there are fewer than two rows; otherwise it is a pair that occurs, with its count; no pair occurs more often; among pairs with the same count it is the one that occurs first |
| SuspiciousOrders.CustomerReturns | Assignment3.py:168 | when every ReturnFlag is 0 or 1, a customer's ReturnFlag sum equals that customer's number of returned orders |
| SuspiciousOrders.IsSuspicious | Assignment3.py:167-168 | when every ReturnFlag is 0 or 1, an order is suspicious exactly when it was returned, has a price above 500 and its customer has at least three returned orders |
| SuspiciousOrders.FlagSuspicious | Assignment3.py:167-170 | one flag per row; for any ReturnFlag values, row i is flagged exactly when its ReturnFlag is 1, its price is above 500 and its customer's ReturnFlag sum over the whole table is above 2 |
| SuspiciousOrders.CustomerReturnsAppend | Assignment3.py:168 | a customer's ReturnFlag sum over two tables in sequence is the sum of the two |
| SuspiciousOrders.CustomerReturnsPermutation | Assignment3.py:168 | a customer's ReturnFlag sum does not depend on row order |
| SuspiciousOrders.SuspiciousIgnoresRowOrder | Assignment3.py:105-170 | reordering the rows, as the sort at line 105 does, does not change whether an order is suspicious |

## Left out

- File I/O, display and printing (`read_csv`, `to_json`, `to_parquet`, `to_csv`, `read_json`, `read_parquet`, `os.makedirs`, every `print`): these are I/O with no logic of their own.
- The column rename at Assignment4_Webtree.py:35: it does not change any value.
- Region imputation from each customer's most common region (Assignment3.py:45-46): its tie-breaking and NaN handling are defined inside pandas' `mode`, which is not part of this model.
- Date and time steps (Assignment3.py:57-121): UTC conversion, median-date imputation, the 7-day return date, weekly periods and the 14-day rolling count follow pandas datetime semantics.
- The sort at Assignment3.py:105 is not modelled as an operation. The promo pairs take the PromoCode column in whatever order it arrives, and SuspiciousIgnoresRowOrder shows that the flag does not depend on that order.
- Float arithmetic: customer totals (Assignment3.py:129-135), return rates (141-145), float32 downcasting (158-159) and rolling means (183).
- IsSuspicious: compares the exact price with 500. The float32 downcast at Assignment3.py:158-159 runs before line 168 and could round a price just above 500 down to 500; that is not captured.
- Rows carry only the nine columns of `Order`. `drop_duplicates()` at Assignment3.py:18 compares every column the CSV has; a further column, such as an order id, would keep apart rows that the model merges.
- Missing values: a missing Price, Quantity, Product, Category, CustomerID or ReturnFlag (NaN) is not modelled. Only Region and PromoCode are optional. A NaN price would fail `> 0`, and a NaN customer id matches no row.
- NaN identity in `Counter` keys (Assignment3.py:151): every missing PromoCode is one `None` value.
- Lower and Capitalize: only ASCII letters change case. Python's Unicode case mapping and titlecasing of other characters are not modelled.
- MostCommonPromoSpec: the tie rule comes from the library. `Counter.most_common(1)` reduces to `max` over the counter's keys in first-insertion order. The model follows that behaviour; none of the cited lines state it.
- Non-string PARENT_CATEGORY_IDs: `"_".join` would raise on them, so ids are modelled as strings. BRAND_ID is any type with equality.
- A missing BRAND_ID (NaN) is not modelled. Each row hands `generate_web_tree` its own NaN object, and NaN is not equal to itself, so such rows would each get a one-element list of their own. In the model, equal brand values always share one list.
- WebTreeColumn, ApplyRows and Clean: on an empty table the model returns an empty result. The script instead raises an error: pandas' `apply` on a frame with no rows probes the function once, and the frame it returns cannot be assigned to the single `Web_TREE` column (Assignment4_Webtree.py:32). Likewise, when line 28 empties the table, the region imputation at Assignment3.py:46 raises before line 49 is reached. That error path is not modelled.
- `df.apply(..., axis=1)` at Assignment4_Webtree.py:32 is taken to call the function exactly once per row, in row order. pandas versions before 1.1 documented calling it on the first row twice; with this side-effecting function that would append the first row's id twice.
- `assignmentpanda.py` is not part of this model: it consists of float means, discount arithmetic and single library calls.
- `Multiprocessing Assignment.py` (the four-process chunk sum/min/max/parity aggregation) is not part of this model.
