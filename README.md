# Product catalog service: a verified model

This project models the product catalog service of an online shop. The
service is a small JAX-RS resource over a DynamoDB table. The model covers
four parts:

- **The listing, `GET /products`.** Its optional `searchTerm` and `category`
  become a scan filter (an expression string plus the values of its
  placeholders). The scanned items are ordered by a stable sort on `Price` or
  `AverageRating`. For `sortOrder` "DSC" in any case, the sorted list is then
  reversed. Finally the list is cut into a page (1 and 4 when `page` and
  `pageSize` are absent) with its page count and 1-based range.
- **The writing endpoints.** `POST` builds a nine-attribute item from a
  `Product` and puts it. `PUT` overwrites the rating and adds the action's
  delta to the comment count. `DELETE` is meant to remove a product, but as
  written it never reaches the store (see "Findings"). Each endpoint
  answers 401 without a token, and each has a fallback message.
- **The `Product` bean.** It is a class with nine fields, getters and
  setters.
- **The readiness check.** It requires four tables to exist, in order,
  each with read and write capacity of at least 1.

Modules:

- `Java`: null references, 32-bit `int` arithmetic and the unchecked
  exceptions.
- `DynamoStore`: attribute values, items, and the put, update and delete
  on a table.
- `ProductBean`
- `CatalogFilter`
- `CatalogSort`: the sort specification, plus the in-place sort and
  reversal on an array.
- `CatalogPaging`
- `CatalogResource`: responses, fallbacks, write requests and the
  resource class.
- `HealthCheck`

The request-scoped resource is a class whose `dynamoDB` field starts null.
Each modelled endpoint, once past the token check, sets it to the `Table`
it reaches, except `deleteProduct`, which never does.

Where the code does less than a reader might expect, the model follows the
code:

- the search term is passed verbatim, with no tokenising or case change;
- a page or page size of zero or below is not clamped;
- `addProduct` generates no identifier;
- `deleteProduct` does not check that the product exists.

## Model

| member | source | states |
|---|---|---|
| Java.Wrap | src/main/java/CatalogResource.java:186-187 | `int` arithmetic: the result is the unique 32-bit value congruent to the exact one modulo 2^32, and the exact value itself whenever it fits |
| Java.Min | src/main/java/CatalogResource.java:187 | `Math.min`: the result is one of the two arguments and no larger than either |
| Java.Present | src/main/java/CatalogResource.java:143 | `s != null && !s.isEmpty()`: the test that decides whether a search term, category or `sortBy` is used (lines 143, 148 and 167); `FilterFor` and `ParseSortBy` state their results in its terms |
| Java.Text | src/main/java/CatalogResource.java:97 | a string operand of `+` contributes its own characters, or "null" for a null reference |
| DynamoStore.KeyOf | src/main/java/CatalogResource.java:244 | the key of an item is the string under `productId` exactly when that attribute holds a non-null string |
| DynamoStore.Utf8Length | src/main/java/CatalogResource.java:259 | the UTF-8 length by which the store measures a key: between one and four bytes per character |
| DynamoStore.AsciiLength | src/main/java/CatalogResource.java:259 | an ASCII key takes one byte per character |
| DynamoStore.ValidKey | src/main/java/CatalogResource.java:259 | the store's key rule: a key value must be non-empty and at most 2048 bytes; `PutItem`, `UpdateItem` and `DeleteItem` refuse every other key |
| DynamoStore.ValidNumber | src/main/java/CatalogResource.java:245-251 | the store's range for numbers: zero, or a magnitude from 1E-130 up to 9.9999999999999999999999999999999999999E+125; `PutItem` and `UpdateItem` refuse every other number |
| DynamoStore.IntegerNumber | src/main/java/CatalogResource.java:250 | an integer of magnitude up to 1E+125, every `int` count included, is a number the store accepts |
| DynamoStore.Storable | src/main/java/CatalogResource.java:243-259 | an item the store accepts: a valid string key, no string attribute built from a null Java string, and every number within range; `PutItem` succeeds exactly on these |
| DynamoStore.PutItem | src/main/java/CatalogResource.java:254-259 | the put succeeds exactly when the item has a non-null string key that is non-empty and at most 2048 bytes, no null string, and no number out of range; it then stores the item under its key, replacing any earlier item there, and keeps every other item |
| DynamoStore.Updated | src/main/java/CatalogResource.java:311-325 | the store's attribute actions: PUT overwrites whatever was there; ADD of a number adds it to a stored number, starts from the number itself when the attribute is absent, and is refused on a string; a number given or computed out of range is refused, so every number it yields is within range |
| DynamoStore.UpdateItem | src/main/java/CatalogResource.java:327-333 | the update succeeds exactly when the key is valid and every attribute update applies (in range, and no ADD to a string) to the existing item (or to a key-only item when absent); the table then holds the key and every other item is unchanged |
| DynamoStore.DeleteItem | src/main/java/CatalogResource.java:376-381 | the delete succeeds exactly when the key is valid; the key is then gone, whether or not it existed, and every other item is kept |
| DynamoStore.Table.constructor | src/main/java/CatalogResource.java:125-127 | the table a built client reaches starts with the items given; the endpoints update its `items` in place |
| ProductBean.Product.constructor | src/main/java/kumuluz/ee/master/master/microservice/simple/Product.java:3-12 | a fresh product has null strings and zero numbers |
| ProductBean.Product.GetProductId | src/main/java/kumuluz/ee/master/master/microservice/simple/Product.java:16-18 | returns the `productId` field and changes nothing |
| ProductBean.Product.SetProductId | src/main/java/kumuluz/ee/master/master/microservice/simple/Product.java:20-22 | any value, null included, becomes `productId`; the other eight fields are unchanged |
| ProductBean.Product.GetCategoryName | src/main/java/kumuluz/ee/master/master/microservice/simple/Product.java:24-26 | returns `categoryName` and changes nothing |
| ProductBean.Product.SetCategoryName | src/main/java/kumuluz/ee/master/master/microservice/simple/Product.java:28-30 | only `categoryName` changes, to the value given |
| ProductBean.Product.GetImageURL | src/main/java/kumuluz/ee/master/master/microservice/simple/Product.java:32-34 | returns `imageURL` and changes nothing |
| ProductBean.Product.SetImageURL | src/main/java/kumuluz/ee/master/master/microservice/simple/Product.java:36-38 | only `imageURL` changes, to the value given |
| ProductBean.Product.GetPrice | src/main/java/kumuluz/ee/master/master/microservice/simple/Product.java:40-42 | returns `Price` and changes nothing |
| ProductBean.Product.SetPrice | src/main/java/kumuluz/ee/master/master/microservice/simple/Product.java:44-46 | any price, negative included, becomes `Price`; nothing else changes |
| ProductBean.Product.GetAverageRating | src/main/java/kumuluz/ee/master/master/microservice/simple/Product.java:48-50 | returns `AverageRating` and changes nothing |
| ProductBean.Product.SetAverageRating | src/main/java/kumuluz/ee/master/master/microservice/simple/Product.java:52-54 | any rating, outside 0 to 5 included, becomes `AverageRating`; nothing else changes |
| ProductBean.Product.GetProductName | src/main/java/kumuluz/ee/master/master/microservice/simple/Product.java:56-58 | returns `productName` and changes nothing |
| ProductBean.Product.SetProductName | src/main/java/kumuluz/ee/master/master/microservice/simple/Product.java:60-62 | only `productName` changes, to the value given |
| ProductBean.Product.GetDescription | src/main/java/kumuluz/ee/master/master/microservice/simple/Product.java:64-66 | returns `description` and changes nothing |
| ProductBean.Product.SetDescription | src/main/java/kumuluz/ee/master/master/microservice/simple/Product.java:68-70 | only `description` changes, to the value given |
| ProductBean.Product.GetCommentsCount | src/main/java/kumuluz/ee/master/master/microservice/simple/Product.java:72-74 | returns `commentsCount` and changes nothing |
| ProductBean.Product.SetCommentsCount | src/main/java/kumuluz/ee/master/master/microservice/simple/Product.java:76-78 | any `int`, negative included, becomes `commentsCount`; nothing else changes |
| ProductBean.Product.GetDiscountPrice | src/main/java/kumuluz/ee/master/master/microservice/simple/Product.java:80-82 | returns `discountPrice` and changes nothing |
| ProductBean.Product.SetDiscountPrice | src/main/java/kumuluz/ee/master/master/microservice/simple/Product.java:84-86 | only `discountPrice` changes, to the value given |
| ProductBean.SetThenGet | src/main/java/kumuluz/ee/master/master/microservice/simple/Product.java:20-86 | a setter followed by its getter returns what was set, with no validation; the fields not set keep their values |
| CatalogFilter.FilterFor | src/main/java/CatalogResource.java:140-159 | no filter exactly when neither parameter is non-null and non-empty; when a filter is set, it has a `:val` value exactly when the search term is present and a `:cat` value exactly when the category is (shapes in `FilterShapes`, placeholders in `FilterPlaceholders`) |
| CatalogFilter.BuildFilter | src/main/java/CatalogResource.java:140-159 | the clause-by-clause construction yields exactly the filter of the four cases in `FilterShapes` |
| CatalogFilter.FilterShapes | src/main/java/CatalogResource.java:140-159 | the three shapes of a filter that is set: the search clause, the category clause, or both joined by " AND ", with the parameters passed verbatim as `:val` and `:cat` |
| CatalogFilter.SearchPlaceholders | src/main/java/CatalogResource.java:144 | the search clause mentions exactly the placeholder `:val` |
| CatalogFilter.CategoryPlaceholders | src/main/java/CatalogResource.java:152 | the category clause mentions exactly the placeholder `:cat` |
| CatalogFilter.BothPlaceholders | src/main/java/CatalogResource.java:143-153 | the joined expression mentions exactly `:val` and `:cat` |
| CatalogFilter.FilterPlaceholders | src/main/java/CatalogResource.java:140-159 | every placeholder in the expression has a value, and every value belongs to a placeholder |
| CatalogSort.ParseSortBy | src/main/java/CatalogResource.java:167-181 | a sort is selected iff `sortBy` is exactly "AverageRating" or "Price" (case-sensitive); null, empty and anything else select none |
| CatalogSort.IsDescending | src/main/java/CatalogResource.java:171 | `sortOrder.equalsIgnoreCase("DSC")` on a non-null order, character by character; `DescendingExactly` lists the spellings it accepts |
| CatalogSort.DescendingExactly | src/main/java/CatalogResource.java:171 | a descending order is requested by exactly twelve spellings: each letter of "DSC" in either case, and the long s (U+017F), which upper-cases to S, for the S |
| CatalogSort.HasKey | src/main/java/CatalogResource.java:170 | the item has the sort attribute as a number, so the key extractor's `get(..).n()` does not fail; `SortThrows` is stated in its terms |
| CatalogSort.Key | src/main/java/CatalogResource.java:170 | the key extractor `Double.parseDouble(item.get(..).n())` on an item that has the key; the sort lemmas order by it |
| CatalogSort.StableSort | src/main/java/CatalogResource.java:170 | `List.sort` with the key comparator: `StableSortAscending`, `StableSortPermutes` and `StableSortKeepsTies` state that it is ascending, a permutation, and stable |
| CatalogSort.Reverse | src/main/java/CatalogResource.java:171 | `Collections.reverse`: `ReverseAt`, `ReverseLength`, `ReversePermutes`, `ReverseWithKey` and `ReverseDescending` state its effect |
| CatalogSort.SortThrows | src/main/java/CatalogResource.java:170-175 | the comparator's key extractor fails on some item: a sort is selected, there are at least two items, and one lacks a numeric key; `ListItems` and `ListingThrows` give the `NullPointerException` exactly then |
| CatalogSort.InsertPermutes | src/main/java/CatalogResource.java:170 | one insertion step adds exactly the inserted item |
| CatalogSort.InsertAscending | src/main/java/CatalogResource.java:170 | inserting into an ascending list keeps it ascending |
| CatalogSort.InsertWithKey | src/main/java/CatalogResource.java:170 | the inserted item goes after every item with the same key |
| CatalogSort.StableSortAscending | src/main/java/CatalogResource.java:170 | the sorted list has non-decreasing keys |
| CatalogSort.StableSortPermutes | src/main/java/CatalogResource.java:170 | the sorted list is a permutation of the scan |
| CatalogSort.StableSortKeepsTies | src/main/java/CatalogResource.java:170 | items with equal keys keep their scan order (stability of `List.sort`) |
| CatalogSort.ReverseAt | src/main/java/CatalogResource.java:171 | `Collections.reverse`: position i holds what was at n-1-i |
| CatalogSort.ReverseLength | src/main/java/CatalogResource.java:171 | reversal keeps the length |
| CatalogSort.ReversePermutes | src/main/java/CatalogResource.java:171 | reversal is a permutation |
| CatalogSort.ReverseWithKey | src/main/java/CatalogResource.java:171 | reversal reverses the order within each group of equal keys |
| CatalogSort.ReverseDescending | src/main/java/CatalogResource.java:171 | the reverse of an ascending list is descending |
| CatalogSort.Ordered | src/main/java/CatalogResource.java:164-182 | the listing order is a permutation of the scan of the same length (ascending, descending and tie order in `OrderedSpec`) |
| CatalogSort.OrderedSpec | src/main/java/CatalogResource.java:164-182 | with no recognised `sortBy` the listing order is the scan order. Otherwise keys ascend with ties in scan order, or for "DSC" (any case) keys descend with ties in reverse scan order |
| CatalogSort.InsertSplit | src/main/java/CatalogResource.java:170 | an insertion step places the item right after the last element whose key does not exceed its own |
| CatalogSort.InsertPlaced | src/main/java/CatalogResource.java:170 | shifting the larger-keyed tail right by one and writing the item into the gap gives the insertion step |
| CatalogSort.MakeRoom | src/main/java/CatalogResource.java:170 | the larger-keyed tail of the sorted prefix moves right by one; the gap is after the last element not exceeding the item's key; the rest of the array is untouched |
| CatalogSort.InsertAt | src/main/java/CatalogResource.java:170 | one in-place pass extends the sorted prefix by the next item, as the insertion step does, and leaves the suffix alone |
| CatalogSort.SortInPlace | src/main/java/CatalogResource.java:170 | the array afterwards is the stable ascending sort of its old contents |
| CatalogSort.ReverseInPlace | src/main/java/CatalogResource.java:171 | the array afterwards is the reverse of its old contents |
| CatalogSort.OrderItems | src/main/java/CatalogResource.java:165-181 | the copy, in-place sort and in-place reversal produce the listing order of `OrderedSpec` |
| CatalogPaging.OrDefault | src/main/java/CatalogResource.java:131-136 | only a null `page` or `pageSize` is replaced (by 1 or 4); zero and negative values are kept |
| CatalogPaging.TotalPages | src/main/java/CatalogResource.java:184 | for a positive page size, the fewest pages of that size that hold all n items; for zero, 0 pages when n is 0 and `Integer.MAX_VALUE` otherwise |
| CatalogPaging.SliceWithin | src/main/java/CatalogResource.java:188 | a `subList` view holds nothing its list does not |
| CatalogPaging.Paginate | src/main/java/CatalogResource.java:184-196 | a page that is returned counts all n items, holds at most `pageSize` items, and is the contiguous run of the list ending at `currentRangeEnd` (at most n); a failure is one of `subList`'s exceptions, never a null dereference |
| CatalogPaging.PaginateWindow | src/main/java/CatalogResource.java:184-196 | while `start = (page-1)*pageSize` is at most n, the page is `items[start..min(start+pageSize, n)]` (at most `pageSize` items), the total is all n items, and the range is `start+1 .. end`; past n the call throws |
| CatalogPaging.PageBelowOneThrows | src/main/java/CatalogResource.java:186-188 | a page number below 1 is not clamped: `subList` throws `IndexOutOfBoundsException` |
| CatalogPaging.NegativePageSizeThrows | src/main/java/CatalogResource.java:186-188 | a negative page size always makes `subList` throw |
| CatalogPaging.ZeroPageSize | src/main/java/CatalogResource.java:184-188 | a zero page size gives an empty page whatever the page number |
| CatalogPaging.RangeMatchesPage | src/main/java/CatalogResource.java:186-196 | the reported range counts exactly the returned items: the smaller of the page size and what remains |
| CatalogPaging.SecondPageOfTen | src/main/java/CatalogResource.java:184-196 | ten items, page 2 of size 4: items 5 to 8, 3 pages, 10 products |
| CatalogResource.StoreFailure | src/main/java/CatalogResource.java:201-204 | the `catch (DynamoDbException e)` of every endpoint (lines 201, 262, 336 and 384): 500 with the exception's message; `ListProducts`, `AddProduct`, `UpdateProductRating` and the deletes answer it exactly when the store call fails |
| CatalogResource.GetProductFallback | src/main/java/CatalogResource.java:95-104 | 200 with a description: the fixed apology, then the product id or "null" |
| CatalogResource.GetProductsFallback | src/main/java/CatalogResource.java:207-222 | 200 with the fixed description, whatever the parameters |
| CatalogResource.AddProductFallback | src/main/java/CatalogResource.java:266-276 | 200 naming the product's name, except that a null product throws `NullPointerException` again |
| CatalogResource.UpdateProductRatingFallback | src/main/java/CatalogResource.java:340-352 | 200 with the fixed apology followed by the product id |
| CatalogResource.DeleteProductFallback | src/main/java/CatalogResource.java:389-399 | 200 with the fixed apology followed by the product id |
| CatalogResource.ProductItemStrings | src/main/java/CatalogResource.java:244-250 | the stored strings are the product's own: its id (no generated one), category, image, name, and its `description` under `Description` |
| CatalogResource.ProductItemShape | src/main/java/CatalogResource.java:243-252 | the item has exactly the nine attributes and is keyed by the product's id |
| CatalogResource.AddProductPut | src/main/java/CatalogResource.java:243-259 | the put succeeds iff the id is non-null, non-empty and at most 2048 bytes, the four other string fields are non-null, and the rating, price and discount price are within the store's number range (the `int` count always is); the product is then stored under its id, replacing any earlier one, and every other product stays |
| CatalogResource.CommentsDelta | src/main/java/CatalogResource.java:317-321 | "add" gives 1 and "delete" gives -1, each iff the action is that word; anything else, null included, gives 0 |
| CatalogResource.RatingUpdateEffect | src/main/java/CatalogResource.java:308-333 | fails only for an empty or over-long id, a rating outside the store's number range, a stored count that is a string, or a count the delta takes out of range. Otherwise the rating becomes `avgRating` whatever it was, the count grows by the delta (from 0 when absent), no other attribute is touched, and a missing product is created with only its id and these two |
| CatalogResource.ProductItem | src/main/java/CatalogResource.java:243-252 | the item `addProduct` fills; `ProductItemStrings`, `ProductItemShape` and `AddProductPut` state its attributes, its key and the effect of putting it |
| CatalogResource.RatingUpdates | src/main/java/CatalogResource.java:311-325 | the two attribute updates `updateProductRating` sends; `RatingUpdateEffect` states their effect on the stored product |
| CatalogResource.ListItems | src/main/java/CatalogResource.java:164-199 | over the scanned items: `NullPointerException` exactly when the sort's key extractor fails; a response is 200 with a listing that counts every scanned item and shows only scanned items, each no more often than scanned |
| CatalogResource.ShapeListing | src/main/java/CatalogResource.java:164-199 | the in-place ordering followed by the page gives exactly the listing of `ListItems` |
| CatalogResource.ListProducts | src/main/java/CatalogResource.java:118-206 | a failed scan answers 500 with the store's message; otherwise the listing of the scanned items with `page` and `pageSize` defaulted (window, defaults and throws in the three lemmas below) |
| CatalogResource.ListingWindow | src/main/java/CatalogResource.java:162-199 | a listing within range is 200 with the ordered scan's window, the page count, the size of the whole filtered scan, and the 1-based range; the ordered list is a permutation of the scan |
| CatalogResource.ListingDefaults | src/main/java/CatalogResource.java:131-196 | without `page` and `pageSize` the listing is the first four ordered items, range 1 to min(4, n) |
| CatalogResource.ListingThrows | src/main/java/CatalogResource.java:164-201 | a sort over at least two items, one of which lacks the numeric key, throws `NullPointerException`; a page past the end throws `IllegalArgumentException`; the store-exception handler catches neither |
| CatalogResource.CatalogResource.constructor | src/main/java/CatalogResource.java:36-52 | a fresh request-scoped resource has no client |
| CatalogResource.CatalogResource.GetProducts | src/main/java/CatalogResource.java:118-206 | builds the client, then answers exactly the listing of `ListProducts` on the table it reached |
| CatalogResource.CatalogResource.AddProduct | src/main/java/CatalogResource.java:235-265 | without a token: 401, and neither the client nor the table changes. Otherwise the item filled from the getters is put. 201 when the store accepts it, 500 with the message and the table unchanged when it does not. A null product throws |
| CatalogResource.CatalogResource.UpdateProductRating | src/main/java/CatalogResource.java:291-339 | without a token: 401 and no store call. Otherwise the update of `RatingUpdateEffect` is applied. 200 on success, 500 with the store's message and the table unchanged on failure |
| CatalogResource.CatalogResource.DeleteProduct | src/main/java/CatalogResource.java:367-387 | as written: without a token 401 and nothing changes; with a token and no client, `NullPointerException`; with a client, the delete's result: 200 and the key removed, or 500 with the store's message and the table unchanged |
| CatalogResource.CatalogResource.DeleteProductBuildingClient | src/main/java/CatalogResource.java:367-387 | the delete with the client built first: 401 without a token; otherwise 200 and exactly that key removed, or 500 with the store's message and the table unchanged |
| CatalogResource.DeleteOnFreshResource | src/main/java/CatalogResource.java:381 | an authenticated delete on a fresh resource throws `NullPointerException`, and the product stays |
| CatalogResource.DeleteOnFreshResourceBuildingClient | src/main/java/CatalogResource.java:367-383 | the same request with the client built: for a valid key 200, and exactly that product is gone; an empty or over-long key answers 500 and the table stays |
| CatalogResource.UnauthenticatedWritesChangeNothing | src/main/java/CatalogResource.java:236-238 | without a token, add, update and the delete as written each answer 401 and the table is unchanged (guards at 236, 294 and 369) |
| HealthCheck.MissingMessage | src/main/java/DynamoDbHealthCheck.java:40 | the error data for a table not in the listing; `TableProblem` reports it for exactly the unlisted tables |
| HealthCheck.CapacityMessage | src/main/java/DynamoDbHealthCheck.java:47 | the error data for a listed table with a capacity below 1; `TableProblem` reports it for those tables |
| HealthCheck.TableProblem | src/main/java/DynamoDbHealthCheck.java:39-53 | a table has no problem exactly when it is healthy; a missing table is reported as missing whatever a describe would say; a failing `describeTable` reports its exception's message (the catch at lines 52-53); a single capacity below 1 is enough for the capacity message |
| HealthCheck.Verdict | src/main/java/DynamoDbHealthCheck.java:38-51 | a DOWN message is the problem of one of the tables checked |
| HealthCheck.Check | src/main/java/DynamoDbHealthCheck.java:32-55 | a failed listing gives DOWN with its message; otherwise a DOWN message is the problem of one of the four required tables |
| HealthCheck.Call | src/main/java/DynamoDbHealthCheck.java:32-55 | the response is named "DynamoDB health check" and the loop's early returns give the first-failure verdict `Check`: all tables before the current one are healthy |
| HealthCheck.VerdictUp | src/main/java/DynamoDbHealthCheck.java:38-51 | UP iff every table in the list is listed, described, and has read and write capacity of at least 1 |
| HealthCheck.CheckUp | src/main/java/DynamoDbHealthCheck.java:29-53 | UP iff the listing succeeded and CartDB, CommentDB, OrdersDB and ProductCatalog are all healthy |
| HealthCheck.FirstProblemDecides | src/main/java/DynamoDbHealthCheck.java:38-49 | the first table with a problem decides the DOWN message; later tables are not examined |
| HealthCheck.DescribeOnlyListed | src/main/java/DynamoDbHealthCheck.java:39-43 | `describeTable` is consulted only for listed tables: describers that agree on them give the same verdict |
| HealthCheck.ListingMembershipOnly | src/main/java/DynamoDbHealthCheck.java:36-39 | extra tables in the listing, and its order, do not change the verdict |

## Left out

- Fault-tolerance behaviour. Timeouts, retries, the circuit breaker, the bulkhead and the dispatch to a fallback belong to the MicroProfile Fault Tolerance runtime, which is not part of this model. The configured numbers are recorded as `Policy` constants, and the fallbacks are modelled as response builders. When an endpoint throws (for example the `NullPointerException` of the finding below), the runtime would retry and then answer with the fallback. The model stops at the exception.
- The AWS SDK client and the store calls. Building a client is reduced to setting `dynamoDB` to a `Table`, and store calls are functions on maps.
- DynamoDB's own evaluation of the filter expression and the order of scan results. The scan is a function parameter of the table and the filter.
- Service-side store failures not caused by the request, such as throttling or an internal error. These arrive as a `DynamoDbException`. An endpoint's `outage` parameter stands for them and answers 500 with their message.
- Client-side SDK failures, such as a connection error or an API-call timeout. These are `SdkClientException`, not `DynamoDbException`, so the `catch` at lines 201, 262, 336 and 384 does not handle them and they leave the endpoint uncaught. The model has no input for them.
- The text of the store's validation error. `ValidationMessage` stands for it.
- `getProduct` (lines 70-93) and the `ResponseTransformer` it and the listing use. `ResponseTransformer` is not part of this model, so a page holds the raw items.
- Metrics, histograms and logging.
- JWT injection and service discovery. Being authenticated is a boolean.
- `ConfigProperties` and the table name and region it supplies. `CatalogResource` calls `getDynamoRegion` and `getCognitoIssuer`, while `ConfigProperties.java:22` and `:38` declare `getDynamoDbRegion` and `getIssuer`.
- `ProductCatalogApplication`, which only bootstraps the application.
- The health check's `init()` and the SDK response objects. The listing and the describer are inputs, and an exception is represented by its message, so a null message is not modelled.
- Floating point. Numeric attributes and sort keys are `real`, so `Double.toString`/`parseDouble` text, NaN and rounding are not modelled; a key of NaN would not sort as a real does. The store's range for numbers is modelled (`ValidNumber`); `Infinity` and `NaN`, whose text the store also refuses, have no `real`.
- DynamoStore.UpdateItem: the store's limit of 38 significant digits is not checked. `Double.toString` never gives more than 17, but an ADD to a stored number with many digits could exceed 38 and be refused by the store, which the model accepts.
- CatalogPaging.TotalPages: for a positive page size, this is the exact ceiling. The double division at line 184 has the same ceiling for every `int` operands. No floating-point division is modelled.
- CatalogSort.SortThrows: this assumes that a list of at least two elements consults the key of every element. For `List.sort` on such a list, that holds.
- CatalogPaging.PaginateWindow: requires `page * pageSize` to fit in an `int`, so that `start + pageSize` does not wrap either. Near the limit, `end` can wrap below `start` and `subList` throws even though `start <= n`; `Paginate` itself wraps as Java does and covers that case.
- CatalogPaging.RangeMatchesPage: requires `page * pageSize` to fit in an `int`, as `PaginateWindow` does.
- CatalogResource.ListingWindow: requires `page * pageSize` to fit in an `int`, as `PaginateWindow` does.
- CatalogPaging.PageBelowOneThrows: requires `(page-1)*pageSize` to stay at or above `Integer.MIN_VALUE`.
- CatalogPaging.NegativePageSizeThrows: requires `(page-1)*pageSize` to fit in an `int`.
- DynamoStore.PutItem: the store's limit of 400 KB on the size of an item is not modelled. Only the key's 2048-byte limit is.
- CatalogResource.AddProductPut: an item over 400 KB is not refused, as in `PutItem`.

## Findings

| source | as written | input that shows it | evidently intended | confidence | as-written member | corrected member |
|---|---|---|---|---|---|---|
| src/main/java/CatalogResource.java:381 | `deleteProduct` uses the `dynamoDB` field without building the client, unlike lines 72, 125, 239 and 297; in a request-scoped resource that field is null | an authenticated `DELETE /products/p1` on a fresh resource throws `NullPointerException`, and `p1` stays in the table | build the client first, as the other endpoints do, so that the product is removed and 200 is returned | not executed | CatalogResource.DeleteOnFreshResource | CatalogResource.DeleteOnFreshResourceBuildingClient |
