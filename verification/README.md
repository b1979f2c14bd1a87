# Product price records: a Dafny model

The program loads product price records from a CSV file. Each record has a
product, a price, a store and a category. The loader accepts several spellings
of each column header. The program then answers four queries over the records:

- the cheapest item overall;
- the cheapest item with a given product name, ignoring case;
- the items whose category contains a given text, ignoring case;
- the records sorted by price or by the text of a field.

This project models the loader's row normalisation and the four queries as pure
Dafny functions over an immutable `Record` datatype, and proves what each one
promises.

Modules, one per component:

- `Records`: the `Record` datatype. Prices are `real`, because they are only ever compared.
- `Loader`: header-alias resolution, the keep-or-drop decision for one row, and the whole load loop.
- `Queries`: `find_cheapest_overall`, `find_cheapest_by_product` and `filter_by_category`.
- `Sorting`: `sort_data`, modelled as a stable insertion sort.
- `Text`: ASCII lower-casing, substring search, and Python's code-point order on strings.
- `Seqs`: the two selection shapes the source uses: the category filter's list comprehension, and the loader's append loop that keeps only the rows that normalise.
- `Wrappers`: `Option`, which stands for Python's `None`.
- `Examples`: the demonstration driver's sample records and a few loader rows, as concrete lemmas.

Two behaviours of the code are worth stating, and the model keeps both:

- The code does not check that prices are non-negative. Any price the parser accepts is kept.
- The category filter always lower-cases both the query and the category before the substring test, so the filter is case-insensitive in every case.

## Model

| member | source | states |
|---|---|---|
| Loader.Resolve | 2_Input/Test_5.py:10-13 | The resolved value is empty exactly when no alias header is present with a non-empty cell. Otherwise it is the cell of the first such alias in the listed order. |
| Loader.ResolveFirstFilled | 2_Input/Test_5.py:10-13 | If alias `i` is the first filled one, the field takes its cell, whatever later aliases hold. |
| Loader.CategoryOf | 2_Input/Test_5.py:13 | The category is never empty. It is the first filled category alias when there is one; otherwise it is the default `Uncategorized`. |
| Loader.NormalizeRow | 2_Input/Test_5.py:10-24 | A row yields a record exactly when product, price and store resolve to non-empty text and the price parses. The record then carries the resolved product and store, the parsed price and the defaulted category. Every record produced has non-empty product, store and category. |
| Loader.LoadRows | 2_Input/Test_5.py:5-25 | Every loaded record comes from some row that normalises. Every row that normalises contributes its record. There are never more records than rows, and all records are well-formed. |
| Loader.LoadRowsAppend | 2_Input/Test_5.py:8-24 | Loading two batches of rows gives the first batch's records followed by the second's, so input order is kept. |
| Loader.LoadRowsSingle | 2_Input/Test_5.py:14-24 | A single row contributes exactly its record when it normalises, and nothing otherwise. |
| Loader.LoadData | 2_Input/Test_5.py:3-25 | The appending loop over the rows computes exactly the order-preserving collection of normalised rows. |
| Seqs.Collect | 2_Input/Test_5.py:8-24 | Collecting the present results of a per-row function keeps every present result and only those, never more than the input length. |
| Seqs.CollectLoop | 2_Input/Test_5.py:5-25 | A single pass that appends each present result computes exactly the collection of present results, in input order. |
| Seqs.CollectAppend | 2_Input/Test_5.py:8-24 | Collecting distributes over concatenation, so nothing is reordered. |
| Queries.CheapestIndex | 2_Input/Test_5.py:31 | There is no result exactly when no element qualifies. Otherwise the result is the position of the first qualifying element whose price is no greater than that of any qualifying element. |
| Queries.FirstCheapestUnique | 2_Input/Test_5.py:31 | At most one position is the first cheapest one, so `min`'s choice is fully determined. |
| Queries.MinByPrice | 2_Input/Test_5.py:31 | The loop form of `min`, which replaces the current best only by a strictly cheaper element, returns the first position of minimal price. |
| Queries.CheapestWhere | 2_Input/Test_5.py:31 | The cheapest qualifying record, as a value: absent exactly when nothing qualifies, otherwise the record at the first cheapest position. |
| Queries.CheapestWhereIsCheapestOfFilter | 2_Input/Test_5.py:36-39 | Taking the cheapest qualifying record equals filtering the qualifying records first and then taking the cheapest of the filtered list. |
| Queries.FindCheapestOverall | 2_Input/Test_5.py:27-31 | The result is `None` exactly when the data is empty. Otherwise it is an element of the data with the least price, and no earlier element has that price. |
| Queries.CheapestOverallStrictWinner | 2_Input/Test_5.py:29-31 | A record strictly cheaper than every other record is the answer. |
| Queries.CheapestOverall | 2_Input/Test_5.py:27-31 | Guarding the empty case and running the loop form of `min` gives the same answer as `FindCheapestOverall`. |
| Queries.FindCheapestByProduct | 2_Input/Test_5.py:33-39 | The result is `None` exactly when no record's lower-cased product equals the lower-cased query. Otherwise it is a matching record priced no higher than any match, and no earlier match has that price. |
| Queries.CheapestByProductStrictWinner | 2_Input/Test_5.py:36-39 | A matching record that is strictly cheaper than every other match is the answer. |
| Queries.CheapestByProductIgnoresCase | 2_Input/Test_5.py:36 | Two queries with the same lower-cased form get the same answer. |
| Queries.CheapestByProductPreLowered | 2_Input/Test_5.py:36 | Lower-casing the query before asking gives the same answer as asking with the query as typed. |
| Queries.CheapestByProductIsMinOfMatches | 2_Input/Test_5.py:36-39 | The answer equals `find_cheapest_overall` applied to the list of matches, which is the source's literal two-step formulation. |
| Seqs.Filter | 2_Input/Test_5.py:43 | The filtered list holds only elements that satisfy the test. Each satisfying element occurs as often as in the input, and the input order is kept. |
| Seqs.FilterAppend | 2_Input/Test_5.py:43 | Filtering distributes over concatenation. |
| Queries.FilterByCategory | 2_Input/Test_5.py:41-43 | The output holds exactly the records whose category is non-empty and contains the lower-cased query in its lower-cased text, with their input multiplicities, in input order. |
| Queries.FilterByCategoryAppend | 2_Input/Test_5.py:43 | Filtering two batches gives the first batch's matches followed by the second's. |
| Text.Contains | 2_Input/Test_5.py:43 | The substring test holds exactly when the needle occurs at some position of the text. The empty needle occurs in every text. |
| Text.Lower | 2_Input/Test_5.py:36 | Lower-casing keeps the length, maps each letter `A`-`Z` to the letter 32 code points later in `a`-`z`, leaves every other character unchanged, and leaves no upper-case letter behind. |
| Text.LowerIdempotent | 2_Input/Test_5.py:36 | Lower-casing twice is the same as lower-casing once. |
| Text.StrLeTotal | 2_Input/Test_5.py:52 | Any two strings are comparable in code-point order. |
| Text.StrLeAntisymmetric | 2_Input/Test_5.py:52 | Two strings that are each at most the other are equal. |
| Text.StrLeTransitive | 2_Input/Test_5.py:52 | Code-point order on strings is transitive. |
| Sorting.InsertSorted | 2_Input/Test_5.py:49 | Inserting into a sorted list keeps it sorted. |
| Sorting.InsertWithKey | 2_Input/Test_5.py:49 | Insertion places the new record ahead of every record with the same key. Stability rests on this. |
| Sorting.InsertionSort | 2_Input/Test_5.py:49-52 | The output is a permutation of the input. Its keys never decrease, and records with equal keys keep their input order. |
| Sorting.SortData | 2_Input/Test_5.py:45-52 | The output is a permutation of the input. The key defaults to `price`, and with `price` as the key, prices never decrease. With any other key, the lower-cased field texts never decrease in code-point order, a missing field counting as empty. The sort is stable. |
| Sorting.SortedStableUnique | 2_Input/Test_5.py:45-52 | Two sorted sequences that agree on every group of equal keys are equal. |
| Sorting.SortDataUnique | 2_Input/Test_5.py:45-52 | Any sorted and stable rearrangement of the data is the result of `SortData`. In particular, Python's own stable sort gives this result. |
| Sorting.SortDataIdempotent | 2_Input/Test_5.py:45-52 | Sorting a sorted result again changes nothing. |
| Sorting.SortByMissingFieldKeepsOrder | 2_Input/Test_5.py:52 | Sorting by a field that records do not have leaves the input order unchanged. |
| Sorting.SortDistinctKeys | 2_Input/Test_5.py:45-52 | When no two records share a key, any sorted permutation of the data is the result. |
| Examples.SampleCheapestMilk | 2_Input/Test_5.py:56-66 | On the sample data, the cheapest `Milk` is the 45.0 record at Store A. |
| Examples.SampleCheapestBread | 2_Input/Test_5.py:56-66 | On the sample data, the cheapest `Bread` is the 25.0 record at Store B. |
| Examples.SampleMilkIgnoresCase | 2_Input/Test_5.py:36 | The queries `MILK` and `milk` get the same answer on the sample. |
| Examples.SampleCheapestOverall | 2_Input/Test_5.py:56-66 | The cheapest sample record overall is the 25.0 bread at Store B. |
| Examples.SampleBakery | 2_Input/Test_5.py:56-66 | The `Bakery` filter of the sample returns the three bread records, in sample order. |
| Examples.SampleSortedByPrice | 2_Input/Test_5.py:56-66 | Sorting the sample by price gives 25, 28, 30, 45, 50, 55, 60, 120, 130. |
| Examples.TeaRowResolves | 2_Input/Test_5.py:10-13 | Under the header `Name,Price,Shop`, product resolves through `Name` and store through `Shop`, and category takes its default. |
| Examples.LoadTeaRow | 2_Input/Test_5.py:10-24 | Under the header `Name,Price,Shop`, the row `Tea,19.99,CornerShop` loads as one record with category `Uncategorized`. |
| Examples.UnparsablePriceIsDropped | 2_Input/Test_5.py:15-18 | A row whose price text does not parse is dropped. |
| Examples.MissingStoreIsDropped | 2_Input/Test_5.py:14 | A row without any store column is dropped, whatever its price. |
| Examples.AliasFallThrough | 2_Input/Test_5.py:10-13 | An empty `Product` cell falls through to `product`, and an empty `Category` cell falls through to `Type`. |

## Left out

- Opening the file and CSV parsing (`open`, `csv.DictReader`) are left out. A row is given as a map from header name to cell text. A header the file lacks, or a short row's missing cell, is simply absent from the map. Extra cells stored under a `None` key are not modelled.
- Float parsing is left out. Python's `float(price)` and its bare `except` are a parameter `parse: string -> Option<Price>`, where `None` means the conversion raised. Python's float grammar is not specified.
- IEEE floating point is left out. Prices are reals, so NaN, infinities and the signed zero do not arise. A NaN price would make `min` and `sorted` depend on its position in the list; that behaviour is not modelled.
- Loader.Resolve: returns `""` when no alias is filled. Python's `or` chain would return `None` or `""` there. Both are falsy, so the loader treats them alike.
- Lower-casing is ASCII only. Python's full Unicode `str.lower()` is not modelled, and neither is any character outside A-Z that changes under it.
- Sorting.SortData: uses insertion sort, not Timsort. `Sorting.SortDataUnique` proves that every stable sort with the same key gives the same result.
- Sorting.SortData: the text-key branch covers only the fields `product`, `store` and `category`, plus a missing field. The `str(...)` conversion of a numeric field other than price cannot occur on loaded records.
- The source's promise that the input list is not mutated needs no proof here. Dafny sequences are values.
- The demonstration driver (lines 68-98) only prints fixed-width tables. Its printing is not modelled; its sample data appears in the `Examples` lemmas.
