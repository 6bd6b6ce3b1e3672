# dataview pricing and import core, modelled in Dafny

This project models the data-handling core of the dataview scripts. Those scripts load product price sheets into a MongoDB
database, simulate tender prices from them, export them again, and analyse bid prices. The model covers:

- **Simulator** (`simulator.dfy`, `ordering.dfy`): the pricing simulation of `simulator.py`.
  - The five price estimators (price1 to price5).
  - The per-row median of the five, and the ratio columns s1 to s5 (the minimum over an estimator, times 60).
  - The outlier correction of those ratios against a band of 0.2 to 1.8 times the median.
  - The median-weighted allocation columns a1 to a5, and the stable ranking of their column totals.
  - `sorted()` is modelled by an insertion sort with its permutation and stability lemmas.
- **NameId** (`nameid.dfy`): `extract_number`, which turns a product text into its numeric product code, in two versions.
  - The newer one first looks for a dash followed by ten or more digits.
  - The older one takes the first dotted digit run.
  - Also covered: the success count of `back/dataHandle.py` and the test cases of `back/test_extract_number.py`.
- **Records** (`records.dfy`): `clean_data_record` (null-like values become 0), the rewriting of the nameid column, and
  the record-building loops of `filetodb.py`, `forconst.py`, `importprice.py` and `back/updatefiletodb.py`.
- **Upsert** (`upsert.dfy`): the three `smart_upsert_to_mongodb` variants and `ensure_number_fields_zero`, with the
  collection as an in-memory map from nameid to stored document.
  - Replace-changed-fields (`filetodb.py`, `forconst.py`).
  - Price/name/spec (`importprice.py`).
  - Add-the-number-fields (`back/updatefiletodb.py`).
- **FieldDefaults** (`defaults.dfy`): `parse_field_defaults` of `givedefault.py`.
- **Profit** (`profit.dfy`): `check_columns_exist` and `calculate_profit` of `calprofit.py`.
- **Export** (`export.dfy`): from `dbtofile.py`:
  - the red-highlight decisions of `highlight_min_values_in_excel`;
  - the field projection and the column order of the export;
  - the nameid query and price normalisation that fill the exported price column.
- **Analysis** (`analysis.dfy`): from `dataanalysis.py`:
  - the two row filters and the zero-price repair;
  - the change, margin and profit columns;
  - `get_pricing_strategy`, and the strategy summary.

`values.dfy` (module `PyValues`) gives the Python values the scripts handle: None, NaN, bool, int, float and str. It
also gives `int()`, `float()`, `str()`, `==`, truthiness and the string methods the scripts use, for the inputs they
meet.

Code that loops and updates variables is modelled as a `method` proved against a specification function. Examples are
`generate_price1`, `update_ratios`, `clean_data_record`, the upsert loops, `parse_field_defaults`, `calculate_profit`,
the highlight loop, the price loop and the zero-price repair. Vectorised and comprehension code is modelled as
functions with lemmas.

`generate_median`, `generate_ratios` and `update_ratios` (simulator.py:196-367) have no rule that forces the median and
the ratios to 0 when price1 is 0; the model computes the plain median and ratios.

## Model

| member | source | states |
|---|---|---|
| Simulator.Price1Column | simulator.py:9-48 | None exactly when neither bidprice10 nor price exists (the source raises TypeError); otherwise one cell per row, each the row rule that Price1Cases spells out (gated row 0, else bidprice10 when usable, else price when usable, else 0, times the multiplier) |
| Simulator.Price1Cases | simulator.py:15-48 | a gated row (number11 present and missing or 0) gives 0 times the multiplier; otherwise bidprice10 when usable, else price when present and usable, else 0; without the bidprice10 column, price copied unchanged |
| Simulator.GeneratePrice1 | simulator.py:9-48 | the row loop writes exactly the price1 rule for every row; it needs bidprice10 or price, since otherwise the source raises TypeError |
| Simulator.Price2IsPrice1Rule | simulator.py:51-92 | the masked vectorised price2 equals price1's row rule with bidprice9 in place of bidprice10, and fails exactly when neither bidprice9 nor price exists |
| Simulator.Price2Column | simulator.py:51-92 | the masked vectorised computation as written; what it means is stated by Price2IsPrice1Rule |
| Simulator.Price3Column | simulator.py:167-179 | every cell present; without a price column all 0; otherwise the price with missing as 0, times the multiplier |
| Simulator.Price3Bounds | simulator.py:167-179 | with no negative price and a non-negative multiplier every cell is non-negative; with a price column and a non-zero multiplier a cell is non-zero exactly when the row's price is present and non-zero |
| Simulator.Price5Column | simulator.py:181-193 | the price with missing as 0, times the multiplier; None without a price column, where the warning names an undefined variable |
| Simulator.Price5IsScaledPrice3 | simulator.py:167-193 | price5 fails exactly without a price column and otherwise equals price3 under the same multiplier; with main's multipliers each price5 cell is half the price3 cell |
| Simulator.Price4Column | simulator.py:95-164 | one cell per row |
| Simulator.Price4Cases | simulator.py:142-162 | both bid prices usable: their average; otherwise a usable price; otherwise the usable bid price, else 0; never gated by number11 |
| Simulator.Price4OneCases | simulator.py:120-134 | with exactly one bid column a cell is that bid when usable, else the price when present and usable, else 0 |
| Simulator.Price4WithoutBidsIsPrice3 | simulator.py:108-119 | without either bid column price4 equals price3 at multiplier 1 |
| Simulator.EstimatorRows | simulator.py:205-211 | the five estimator columns read row-wise as rows of five |
| Simulator.Median5 | simulator.py:205-213 | element 2 of the ascending sort of the five values; its meaning is stated by MedianIsMiddle and MedianOfSorted |
| Simulator.MedianIsMiddle | simulator.py:205-213 | the median is one of the five values, with at least three values at or below it and three at or above |
| Simulator.MedianOfSorted | simulator.py:211-213 | the median is element 2 of any ascending arrangement of the five values |
| Simulator.MedianPermutationInvariant | simulator.py:211-213 | permuting the five estimators does not change the median |
| Simulator.GenerateMedian | simulator.py:196-215 | one median per row; all zeros when an estimator column is absent |
| Simulator.GenerateRatios | simulator.py:217-253 | five ratio columns, all zeros when an estimator column is absent |
| Simulator.RatioRow | simulator.py:239-251 | five ratios per row, the minimum divided by each estimator (0 replaced by epsilon) times 60; stated by RatiosOfPositiveRow and RatiosOfRowWithZero |
| Simulator.RatiosOfPositiveRow | simulator.py:239-251 | with all five estimators positive every s_i lies in (0, 60], and s_i is 60 exactly where price_i is the minimum |
| Simulator.RatiosOfRowWithZero | simulator.py:239-251 | with non-negative estimators and one of them 0, every s_i is 0 (epsilon only in the divisor) |
| Simulator.CorrectionKeepsInBandRow | simulator.py:320-365 | a row with every estimator inside [0.2·median, 1.8·median] keeps its ratios |
| Simulator.CorrectionStaysInRow | simulator.py:320-365 | each corrected s_i is one of the row's original ratios, so it stays within their bounds |
| Simulator.CorrectedRow | simulator.py:320-365 | five corrected ratios per row, each from the row's original ratios; stated by CorrectionKeepsInBandRow and CorrectionStaysInRow |
| Simulator.CorrectRatios | simulator.py:295-367 | five corrected columns, one row per input row |
| Simulator.RowsOfMatches | simulator.py:338-365 | an array2 whose cells equal a table of rows reads back as that table |
| Simulator.UpdateRatios | simulator.py:295-367 | the in-place loop over updated_s1..5 yields the simultaneous correction of every row from the original ratios |
| Simulator.Denominator | simulator.py:278-284 | b, the median sum replaced by epsilon when 0, is never 0 |
| Simulator.GenerateAValues | simulator.py:255-293 | five allocation columns, one row per input row |
| Simulator.Allocate | simulator.py:286-291 | one row of five allocations per input row |
| Simulator.TotalIsWeightedSum | simulator.py:279-291 | each column total of a_i is the median-weighted sum of s_i divided by b |
| Simulator.WeightedSumBounds | simulator.py:279-291 | with non-negative medians, the weighted sum lies between min·sum and max·sum |
| Simulator.AllocationTotalIsWeightedMean | simulator.py:279-291 | with non-negative medians of positive sum, each column total of a_i lies between the smallest and largest s_i |
| Simulator.RankingIsStablePermutation | simulator.py:419-427 | the ranking is a permutation of the five (total, name) pairs, ascending by total, ties in column order |
| Simulator.RankTotals | simulator.py:419-427 | the five column totals labelled 1 to 5 in stable ascending order of total; stated by RankingIsStablePermutation |
| Simulator.Estimators | simulator.py:398-402 | main's five estimator columns (price5 with multiplier 0.5) as rows of five |
| Simulator.WorkedExample | simulator.py:398-402 | price 100, bidprice9 0, bidprice10 120, number11 5 gives estimators 120, 100, 100, 100, 50 |
| Simulator.WorkedExampleMedian | simulator.py:196-215 | a row shaped like the worked one (120, 100, 100, 100, 50: one value above three equal ones, one below) has the middle value as its median |
| Simulator.GatedRowExample | simulator.py:398-402 | the same row with number11 0 gives estimators 0, 0, 100, 100, 50 |
| Simulator.GatedRowExampleMedian | simulator.py:196-215 | a row shaped like the gated one (0, 0, 100, 100, 50) has the halved value as its median |
| Simulator.Simulate | simulator.py:398-427 | main's pipeline succeeds exactly when the price column exists (price5 raises otherwise) |
| Simulator.RunSimulation | simulator.py:398-427 | the pipeline run with the imperative stages as methods gives the same output as Simulate |
| Ordering.Sort | simulator.py:211 | the ascending sort is a permutation of its input |
| Ordering.SortSorted | simulator.py:211 | the sort's output is ascending |
| Ordering.SortedUnique | simulator.py:211 | two ascending permutations of the same values are equal |
| Ordering.SortPermutationInvariant | simulator.py:211 | sorting ignores the order of its input |
| Ordering.CountLeSorted | simulator.py:213 | in an ascending sequence, at least k+1 elements are at most element k |
| Ordering.CountGeSorted | simulator.py:213 | in an ascending sequence, at least n-k elements are at least element k |
| Ordering.MinOf | simulator.py:239 | the row minimum is one of the values and at most each |
| Ordering.SortLabelled | simulator.py:426-427 | sorted() by total is a permutation of the pairs |
| Ordering.SortLabelledStable | simulator.py:426-427 | sorted() by total is ascending and keeps ties in input order |
| NameId.LongCodeAt | filetodb.py:13-16 | finds the first dash followed by ten digits, and there is none before it |
| NameId.FirstDigitAt | filetodb.py:18-22 | finds the first digit, and there is no digit before it |
| NameId.ExtractText | filetodb.py:13-20 | the digits of the first long dash code, else the first dotted number; stated by ExtractTextShape |
| NameId.ExtractNumber | filetodb.py:10-22 | the extracted text as a str, or the value itself without a match; stated by ExtractNumberCases |
| NameId.ExtractTextOld | back/updatefiletodb.py:12-14 | the first dotted number; stated by ExtractTextOldShape |
| NameId.ExtractNumberOld | back/updatefiletodb.py:10-16 | the older extract_number: the first dotted number as a str, or the value itself |
| NameId.ExtractTextShape | filetodb.py:10-22 | a result exists exactly when the text has a digit; a long dash code gives an all-digit run of 10 or more; otherwise the old rule's result; always a dotted digit run |
| NameId.ExtractTextOldShape | back/imdb.py:8-14 | a result exists exactly when the text has a digit, and it is a dotted digit run starting and ending with a digit |
| NameId.ExtractedIsSubstring | filetodb.py:13-20 | whatever either version extracts is a non-empty piece of the text |
| NameId.ExtractTextIdempotent | filetodb.py:10-22 | extracting from an extracted code gives the same code |
| NameId.ExtractNumberIdempotent | filetodb.py:10-22 | extract_number applied twice equals once |
| NameId.ExtractTextOldIdempotent | back/imdb.py:8-14 | the old extraction of an extracted code gives the same code |
| NameId.ExtractNumberOldIdempotent | back/dataHandle.py:12-19 | the old extract_number applied twice equals once |
| NameId.ExtractNumberCases | filetodb.py:10-22 | without a digit both versions return the value unchanged; with one the result is a str holding a dotted digit run |
| NameId.LongCodeAfterPrefix | filetodb.py:13-16 | text with no dash before "-" and ten or more digits yields exactly that digit run |
| NameId.DottedAfterPrefix | back/updatefiletodb.py:10-16 | digit-free text, then a dotted run not followed by a digit or ".digit", yields exactly that run |
| NameId.AgreesWithOldWithoutLongCode | back/updatefiletodb.py:10-16 | without a dash followed by ten digits, the new and old versions agree |
| NameId.ExtractedIffDigit | back/dataHandle.py:22-38 | an extraction counts as a success exactly when the original's text has a digit |
| NameId.SuccessCount | back/dataHandle.py:22-38 | the success count of a column equals the number of its values whose text has a digit |
| NameId.SuccessReport | back/dataHandle.py:21-38 | fails (AttributeError of the `.str` accessor) exactly when the column is non-empty and holds no str and no value whose text has a digit; otherwise the count of values whose text has a digit |
| NameId.ExtractedStrIffStrOrDigit | back/dataHandle.py:21 | after extract_number a cell is a str exactly when it was a str or its text has a digit |
| NameId.TestCaseLongCodeAfterDigits | back/test_extract_number.py:20 | "猪肉糜（肥2瘦8）-0701012400" yields "0701012400" |
| NameId.TestCaseLongCode | back/test_extract_number.py:21 | "牛肉-0702013500" yields "0702013500", leading zero kept |
| NameId.TestCaseDigits | back/test_extract_number.py:22 | "鸡肉123" yields "123" |
| NameId.TestCaseShortCode | back/test_extract_number.py:23 | "蔬菜类-070301" yields "070301" by the fallback |
| NameId.TestCaseNoDigits | back/test_extract_number.py:24 | "无数字文本" has no match, so the value is kept |
| NameId.OldVersionTakesFirstDigits | back/imdb.py:10-12 | the old version takes "2" from "猪肉糜（肥2瘦8）-0701012400" |
| NameId.OldVersionStopsAtNonGroup | back/dataHandle.py:15 | "12.a" yields "12" and "1.2.3-4" yields "1.2.3" |
| Records.CleanValue | filetodb.py:31-40 | a null-like value (NaN, None, or text 'n/a'/'na'/'none' in any case) becomes 0, any other is kept, and the result is never null-like |
| Records.Clean | filetodb.py:31-40 | the same keys, each value cleaned as above |
| Records.CleanDataRecord | filetodb.py:31-40 | the key loop of clean_data_record computes Clean |
| Records.CleanLeavesNothingNullLike | importprice.py:11-20 | a cleaned record holds no NaN and no null-like value |
| Records.CleanIdempotent | filetodb.py:31-40 | cleaning twice equals cleaning once |
| Records.RewriteNameIds | filetodb.py:24-29 | only the nameid column changes, to the extracted value; the same keys; no change without a nameid column |
| Records.RewriteNameId | filetodb.py:27-28 | one row with its nameid cell replaced by the extraction; other cells kept |
| Records.ProcessExcelData | filetodb.py:24-29 | process_excel_data with the current extract_number; stated by RewriteNameIds and ProcessExcelDataIdempotent |
| Records.ProcessExcelDataOld | back/updatefiletodb.py:18-23 | the same with the older extract_number |
| Records.ProcessExcelDataIdempotent | filetodb.py:24-29 | process_excel_data applied twice equals once |
| Records.ProcessExcelDataOldIdempotent | back/updatefiletodb.py:18-23 | the old process_excel_data applied twice equals once |
| Records.BuildRecords | filetodb.py:178-188 | each built record is the cleaned row |
| Records.FileRecordsFields | filetodb.py:178-188 | after process_excel_data: the record has the sheet's columns, the cleaned extracted nameid, every other value cleaned, and nothing null-like |
| Records.KeyRecord | forconst.py:200-233 | exactly the keys name, nameid, spec and price, cleaned; price 0 without a price column |
| Records.KeyRecords | forconst.py:178-180 | None exactly when name, nameid or spec is missing; otherwise one record per row |
| Records.BuildKeyRecords | forconst.py:200-233 | the record loop builds KeyRecords |
| Records.ForconstRecordsFields | forconst.py:178-233 | skipped without the key columns; otherwise records over name/nameid/spec/price with the extracted nameid cleaned |
| Records.ImportPriceRecordsFields | importprice.py:144-198 | skipped without the key columns; otherwise records over name/nameid/spec/price with nameid only cleaned, not extracted |
| Records.FillNa | back/updatefiletodb.py:127-137 | NaN or None becomes 0 and nothing else changes |
| Records.BuildFilledRecords | back/updatefiletodb.py:127-137 | every built record keeps the row's keys with NaN replaced by 0 |
| Upsert.ChangedFields | filetodb.py:109-114 | the update set: keys of the data other than nameid and number*, absent from or unequal to the stored value, with the new values |
| Upsert.ChangedPriceFields | importprice.py:51-81 | a subset of price/name/spec; a field enters exactly when the new value differs from existing.get(field) |
| Upsert.UpdateSet | forconst.py:110-127 | either variant's update set, characterised by the fields it considers and how it compares them |
| Upsert.Decide | filetodb.py:78-133 | the decision per record: skip, no change, insert or update; stated by SkipOnlyWithoutNameId, InsertExactlyWhenNew and UpdateShape |
| Upsert.Ops | filetodb.py:74-133 | no more operations than records, in input order |
| Upsert.Apply | filetodb.py:136-137 | the effect of one written operation on the collection; used by UpsertSettles |
| Upsert.SmartUpsert | filetodb.py:69-140 | the loop emits the decided operations in order, and the inserted and updated counts are the InsertOne and UpdateOne counts, summing to the operations emitted |
| Upsert.CountsAddUp | filetodb.py:124-133 | inserts plus updates equal the number of operations |
| Upsert.SkipOnlyWithoutNameId | filetodb.py:80-85 | a record is skipped exactly when it has no nameid key; a null-like nameid is looked up as 0 |
| Upsert.InsertExactlyWhenNew | filetodb.py:88-133 | an InsertOne of the cleaned record is emitted exactly when its nameid is not stored |
| Upsert.UpdateShape | filetodb.py:116-124 | an UpdateOne targets a stored nameid with a non-empty update set of the cleaned data |
| Upsert.UpsertSettles | filetodb.py:109-126 | after applying the emitted operation, the same record causes no operation |
| Upsert.PriceVariantAgrees | importprice.py:51-91 | on records of exactly name/nameid/spec/price, the price/name/spec variant decides as the all-fields variant |
| Upsert.InsertsCountNewIds | filetodb.py:88-133 | inserted_count is the number of records whose nameid is not in the collection before the batch |
| Upsert.DuplicateNewIdsBothInserted | filetodb.py:88 | two records with the same new nameid are both inserted: lookups do not see the batch |
| Upsert.PyAdd | back/updatefiletodb.py:41-51 | Python's + on the stored and new values: int sum, float sum, NaN propagation, str concatenation, TypeError otherwise |
| Upsert.AdditiveFields | back/updatefiletodb.py:41-59 | defined exactly when every addition is defined; its keys are the added number fields and the replaced other fields |
| Upsert.FillNaRecord | back/updatefiletodb.py:71-80 | the same keys |
| Upsert.DecideAdditive | back/updatefiletodb.py:33-80 | the decision per record of the additive variant, None when an addition raises; stated by AdditiveUpdateShape and AdditiveInsertFilled |
| Upsert.AdditiveOps | back/updatefiletodb.py:25-88 | at most one operation per record |
| Upsert.SmartUpsertAdditive | back/updatefiletodb.py:25-88 | the loop computes AdditiveOps, None when an addition raises TypeError |
| Upsert.AbortStays | back/updatefiletodb.py:25-88 | once an addition raises, the whole batch fails |
| Upsert.AdditiveUpdateShape | back/updatefiletodb.py:41-68 | an added number field is set to the stored value (None or missing as 0) plus the new value |
| Upsert.AdditiveInsertFilled | back/updatefiletodb.py:69-82 | an unknown nameid inserts the record with NaN or None replaced by 0 and nothing else changed |
| Upsert.AddingZeroStillUpdates | back/updatefiletodb.py:41-68 | a number field adding 0 still yields an UpdateOne |
| Upsert.TextCountAborts | back/updatefiletodb.py:41-51 | a stored text count plus an int raises, so the batch fails |
| Upsert.NullNumberFields | filetodb.py:56-60 | exactly the number* fields whose value is None, each set to 0 |
| Upsert.ZeroUpdates | filetodb.py:51-66 | only stored documents receive updates, and no update is empty |
| Upsert.NumberFieldsToZero | filetodb.py:52-60 | the field loop computes the None number fields, and update_needed says whether there is any |
| Upsert.EnsureNumberFieldsZero | filetodb.py:42-67 | the document loop computes ZeroUpdates |
| Upsert.EnsureZeroEffect | filetodb.py:42-67 | afterwards the same documents and keys; None number fields are 0; every other field is unchanged |
| FieldDefaults.SplitEntry | givedefault.py:114 | no split exactly when there is no '='; otherwise the name before the first '=' and the rest |
| FieldDefaults.SplitAtFirstEquals | givedefault.py:114 | the value keeps any further '=' |
| FieldDefaults.Coerce | givedefault.py:117-130 | int when int() accepts the text, else float when float() does; otherwise a bool exactly when the lower-cased text is "true" or "false" (True for "true"), and the text itself in every other case |
| FieldDefaults.IntTextIsFloatText | givedefault.py:118-123 | every text int() accepts, float() accepts with the same value |
| FieldDefaults.ParseFieldDefaults | givedefault.py:104-137 | the loop returns Defaults and warns exactly for the entries without '=' |
| FieldDefaults.Defaults | givedefault.py:109-137 | the dict the loop builds; stated by DefaultsLookup, DefaultsKeys, MalformedEntryIgnored and LaterEntryOverrides |
| FieldDefaults.Malformed | givedefault.py:134-135 | the entries that draw the warning: none of them has an "=" |
| FieldDefaults.DefaultsLookup | givedefault.py:109-137 | a name is present exactly when a well-formed entry gives it, with the coerced value of its last entry |
| FieldDefaults.DefaultsKeys | givedefault.py:109-137 | the keys are exactly the names of the well-formed entries |
| FieldDefaults.MalformedEntryIgnored | givedefault.py:134-135 | an entry without '=' has no effect on the result, wherever it stands |
| FieldDefaults.LaterEntryOverrides | givedefault.py:132 | a later entry for the same name wins |
| FieldDefaults.CoerceIntExample | givedefault.py:118-119 | "3" becomes the int 3 |
| FieldDefaults.CoerceFloatExample | givedefault.py:122-123 | "0.5" becomes a float |
| FieldDefaults.CoerceWordExample | givedefault.py:126-127 | "TRUE" becomes True |
| FieldDefaults.CoercePaddedWordExample | givedefault.py:126-129 | " true" stays a string: the word test does not strip |
| Profit.CheckColumnsExist | calprofit.py:31-34 | false on an empty collection |
| Profit.CheckColumnsExistIff | calprofit.py:27-53 | true exactly when the first document has price, the quantity field and the bid-price field, each numeric or None |
| Profit.CalculateProfit | calprofit.py:56-87 | the loop's totals are the sums of (bid price - price) × quantity and bid price × quantity, and count is the number of documents |
| Profit.TotalProfit | calprofit.py:59-79 | the sum over the documents of (bid price - price) × quantity; stated by ProfitIsRevenueLessCost and ProfitNonNegative |
| Profit.TotalRevenue | calprofit.py:60-81 | the sum over the documents of bid price × quantity |
| Profit.ProfitIsRevenueLessCost | calprofit.py:65-82 | total profit is total revenue less the sum of price × quantity |
| Profit.ProfitNonNegative | calprofit.py:78-79 | with no bid price below the price and no negative quantity, the profit is not negative |
| Profit.ProfitRate | calprofit.py:122 | undefined exactly when the revenue is 0; otherwise rate × revenue = profit |
| Export.PriceHighlighted | dbtofile.py:40-67 | the loop with its early exit marks the price exactly when PriceBelowBids holds: the price (empty or missing read as +inf) is below every bid cell that converts, an empty or missing bid reading as -inf |
| Export.CellNumber | dbtofile.py:45-53 | on the cell to_excel wrote (a missing value becomes the empty text, dbtofile.py:13): an empty, zero or missing value reads as the given infinity, and no cell reads as NaN |
| Export.PriceBelowBids | dbtofile.py:45-64 | the mark rule itself; stated by PriceBelowBidsOnNumbers, EmptyBidBlocks and EmptyPriceMarkedOnlyWithoutBids |
| Export.PriceBelowBidsOnNumbers | dbtofile.py:45-64 | for non-zero numbers, marked exactly when the price is strictly below every bid price |
| Export.EmptyBidBlocks | dbtofile.py:52-57 | an empty, missing (NaN) or 0 bid price reads as -inf and blocks the mark |
| Export.EmptyPriceMarkedOnlyWithoutBids | dbtofile.py:45-67 | an empty or missing price (+inf) is marked exactly when no bid-price cell converts; an empty or missing bid converts to -inf and blocks it |
| Export.NamedColumn | dbtofile.py:26-29 | the column with the given header, the last one when several (the header loops overwrite, here and at lines 72-76); None exactly when no header cell has that name |
| Export.BidColumns | dbtofile.py:26-31 | exactly the columns whose header text starts with "bidprice" |
| Export.CompareBids | dbtofile.py:79-91 | each of bidprice9 and bidprice10 is marked exactly when both cells convert (empty or missing as +inf) and it is strictly below the other; never both; nothing when a cell does not convert |
| Export.CompareBidsCases | dbtofile.py:84-91 | equal, or both empty or missing, marks neither; for non-zero numbers the strictly smaller is marked; a non-zero number is marked against an empty or missing cell, which reads as +inf |
| Export.RowMarksShape | dbtofile.py:40 | no price mark without a price column and a bid-price column; never both bid marks |
| Export.RowMarks | dbtofile.py:38-94 | the marks of one row; stated by RowMarksShape and MissingBidExample |
| Export.MissingBidExample | dbtofile.py:38-91 | price 50, a missing bidprice9 and bidprice10 60: the price is not marked (the empty bid reads as -inf) and bidprice10 is marked (the empty bidprice9 reads as +inf) |
| Export.Projection | dbtofile.py:115-123 | every field maps to 1 (include) or 0 (exclude) |
| Export.ProjectionEffect | dbtofile.py:115-123 | _id is exported only when requested; requested fields are exactly those kept; by default level1, level2, level3, spec and _id are dropped |
| Export.Project | dbtofile.py:142 | the returned document is part of the stored one with the stored values |
| Export.ColumnOrder | dbtofile.py:149-155 | the requested columns that exist, in the requested order, then the others; stated by ColumnOrderIsPermutation |
| Export.ColumnOrderIsPermutation | dbtofile.py:149-155 | with distinct names, the order is a permutation of the columns, starting with the requested existing ones in requested order |
| Export.QueryId | dbtofile.py:180-190 | a text whose stripped form int() accepts gives that int, other texts stay as they are; an int is kept, a float is truncated toward zero, a bool gives 0 or 1, and NaN or None (int() raises) stays the nameid |
| Export.LookupPrice | dbtofile.py:176-225 | the price a row receives: failed without nameid, unmatched without a document with a price, else the normalised price |
| Export.NormalizePrice | dbtofile.py:196-223 | the stored price is always a number. A text is stripped and upper-cased: one of N/A, NA, the empty text, NONE or NULL gives 0; any other text gives its float() value, or 0 where float() raises ValueError. An int, float or bool is kept, and any other value (None) gives 0 |
| Export.NormalizePriceIdempotent | dbtofile.py:196-223 | normalising twice equals once |
| Export.AttachPrices | dbtofile.py:168-235 | the loop's price for each row is its looked-up normalised price, or 0, and the counters count matched and unmatched rows |
| Export.AttachedPricesShape | dbtofile.py:168-235 | every exported price is a number, 0 unless matched; with nameid present, matched + unmatched = rows |
| Export.QueryIdExample | dbtofile.py:183-185 | " 0701" queries the int 701 |
| Export.PaddedNoPriceWordIsZero | dbtofile.py:205-207 | a no-price word in any letter case, with any whitespace around it, is stored as 0 |
| PyValues.StripPadded | dbtofile.py:205 | str.strip() of a text framed by whitespace gives back the text, when it neither starts nor ends with whitespace |
| Analysis.FillQuantities | dataanalysis.py:75-77 | number9 and number10 become present, missing read as 0; nothing else changes |
| Analysis.FirstRule | dataanalysis.py:81 | a row is kept when number9 is 0 or number10 is not 0 |
| Analysis.KeepFirst | dataanalysis.py:80 | the kept rows are exactly the rows with number9 = 0 or number10 != 0, in order |
| Analysis.FirstFilter | dataanalysis.py:75-81 | no more rows than before; every kept row has both quantities, with number9 = 0 or number10 != 0 |
| Analysis.SecondRule | dataanalysis.py:92-96 | a row is kept when bidprice9, bidprice10, price9 and price10 are all present and non-zero |
| Analysis.SecondFilter | dataanalysis.py:92-96 | the kept rows are exactly those with bidprice9, bidprice10, price9 and price10 present and non-zero, in order |
| Analysis.CleanedRows | dataanalysis.py:75-132 | after both filters, bidprice9 (the change-percentage divisor) is non-zero in every row |
| Analysis.PairMean | dataanalysis.py:113 | the mean of price9 and price10 with missing cells skipped |
| Analysis.OverallMean | dataanalysis.py:119 | the mean of the non-zero prices, None when there are none |
| Analysis.Repaired | dataanalysis.py:109-120 | the two repair steps; stated by RepairEffect and NoZeroPriceRemains |
| Analysis.RepairZeroPrices | dataanalysis.py:104-126 | the two in-place .loc steps compute Repaired |
| Analysis.RepairEffect | dataanalysis.py:109-120 | only zero prices change: to the pair mean, or to the mean of the non-zero prices when the pair mean is 0 too |
| Analysis.NoZeroPriceRemains | dataanalysis.py:109-120 | with no negative price, price9 or price10, no price is 0 after the repair |
| Analysis.RepairAfterFilter | dataanalysis.py:109-120 | with positive price9 and price10, a zero price becomes (price9 + price10) / 2 and the second step does nothing |
| Analysis.Margin | dataanalysis.py:135-140 | 0 when price is 0; otherwise margin × price = (bid - price) × 100 |
| Analysis.Profit | dataanalysis.py:143-144 | defined exactly when quantity, bid and price are all present; with a positive quantity, positive exactly when bid > price |
| Analysis.ProfitFromMargin | dataanalysis.py:135-144 | profit × 100 = quantity × price × margin |
| Analysis.Derive | dataanalysis.py:131-144 | change_pct × bidprice9 = change × 100; the change is positive exactly when the bid price rose |
| Analysis.PricingStrategy | dataanalysis.py:503-519 | aggressive above 5, steady in (0, 5], conservative in (-5, 0], defensive at -5 or below and for NaN |
| Analysis.StrategyMonotone | dataanalysis.py:511-519 | a larger predicted change never gives a more defensive strategy |
| Analysis.StrategyIgnoresMargin | dataanalysis.py:506-510 | the current margin plays no part: rows with the same prediction get the same strategy |
| Analysis.StrategyCountsAddUp | dataanalysis.py:523 | the four strategy counts add up to the number of rows |
| Analysis.StrategySummary | dataanalysis.py:554-555 | fails (KeyError) exactly when no row is aggressive or no row is defensive |
| PyValues.Text | filetodb.py:13 | str() of a value |
| PyValues.Strip | dbtofile.py:150 | str.strip() with no argument: removes the characters of Python's str.isspace() from both ends |
| PyValues.ParseInt | givedefault.py:118-119 | int() of a text: optional blanks, a sign and decimal digits; None where it raises ValueError |
| PyValues.ParseFloat | givedefault.py:122-123 | float() of a text in decimal notation; None where it raises ValueError |
| PyValues.PyEq | filetodb.py:112 | Python == on stored values: NaN equals nothing, numbers compare by value |
| PyValues.Truthy | dbtofile.py:45 | Python truthiness: None, False, 0 and the empty text are false |
| PyValues.NullLike | filetodb.py:36 | NaN, None or a text that lower-cases to n/a, na or none |

## Left out

- I/O: spreadsheets, MongoDB connections, cursors, `bulk_write`, `update_many`, unique indexes, printing, `input()`,
  `argparse` and `sys.exit`. Also the fonts, charts and temporary files. The collection is a map from nameid to document.
- MongoDB matching is exact key equality in that map. MongoDB's cross-type numeric matching (an int matching an equal
  float) is not modelled, and a found document is taken as truthy even when it is empty.
- The machine-learning prediction of month 11 in `dataanalysis.py` is not modelled. The predicted change is an input of
  `Analysis.PricingStrategy`.
- Floating point: numbers are unbounded `real`. Rounding, infinities and NaN propagation are not modelled; a missing or
  NaN cell is `None`. `Export` keeps +inf and -inf, since the highlight decision depends on them. It reads a NaN or None
  cell as the empty cell that `to_excel` writes for it, so such a cell reads as +inf or -inf like an empty one.
- A Python float's `str()` text is not computed: a float carries the text it was read from. Computed floats carry an
  empty text.
- `int()` and `float()` accept ASCII digits, a sign, a decimal point and an exponent. Underscores, Unicode digits, and
  the texts "inf" and "nan" are not accepted.
- `Upper` and `Lower` change ASCII letters only. `Strip` removes exactly the characters for which Python's
  `str.isspace()` holds.
- NameId.ExtractNumber: the regex `\d` is modelled as an ASCII digit, while Python's `re` `\d` on a str matches every
  Unicode decimal digit (filetodb.py:13, 18; back/imdb.py:10; back/dataHandle.py:15, 38). For a code in full-width
  digits, such as "牛肉-０７０２０１３５００", the source extracts the digits while `ExtractNumber` and `ExtractNumberOld`
  return the value unchanged and `SuccessCount` does not count it.
- NameId.SuccessReport: pandas decides whether `.str` is allowed from the column's inferred dtype. The model's rule
  (a non-empty column with no str cell fails) agrees for the columns a sheet yields (NaN, numbers, bools, texts), but
  not for rarer object columns, such as one holding only None, which pandas accepts.
- Profit.Amount: a NaN field is read as 0, where Python's totals would become NaN.
- Profit.CalculateProfit: same as Profit.Amount: a NaN field counts as 0.
- Export.Project: applies MongoDB's documented projection rule (inclusion when any field is 1, exclusion otherwise)
  rather than a MongoDB server.
- Export.ColumnOrderIsPermutation: also requires the table's columns to be distinct, which a DataFrame built from
  documents guarantees.
- Export.QueryId: a float nameid that is infinite makes `int()` raise OverflowError in the source. That goes to the
  outer handler (price 0). Infinite floats are not a `Value` here.
- Export.AttachPrices: a row of a table whose nameid column is absent raises KeyError and gets price 0 without being
  counted; this is modelled as a row without a nameid key.
- Analysis: rows carry only the columns the cleaning and the formulas read. The zero-price counts the source prints are
  not modelled; they do not change the table.
- generate_price5's undefined name when there is no price column is modelled as failure (`None`), not as a value.
- Simulator.GeneratePrice1: the `[0] * n * 1.0` TypeError without bidprice10 and price is its precondition;
  `Simulator.Price1Column` is None there.
- Upsert.SmartUpsertAdditive: a record without a nameid key raises KeyError (back/updatefiletodb.py:34) and aborts the
  run; this is modelled as its precondition `AllKeyed`.
- update_ratios' missing-column path (simulator.py:312) is not modelled. `Simulator.Simulate` only runs it when every
  column exists.
- Glue files with no logic to state are not modelled: exportprice.py, back/remove_id_field.py,
  back/check_spec_data.py, back/detailed_check.py, back/check_data.py, back/create_comprehensive_test.py and
  back/create_test_file.py.
- The MongoDB query filters of `set_default_values_to_mongodb` (givedefault.py:8-101) are not modelled. Only
  `parse_field_defaults` is.
