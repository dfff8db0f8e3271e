/** The `/products` resource: the listing endpoint, the three endpoints that
    write to the product table, and the fallback responses the
    fault-tolerance policies name.  The JSON web token is reduced to whether
    one was injected; the store client is the `Table` it reaches. */
module CatalogResource {
  import opened Java
  import opened DynamoStore
  import opened ProductBean
  import opened CatalogSort
  import opened CatalogFilter
  import opened CatalogPaging

  const StatusOk: int := 200
  const StatusCreated: int := 201
  const StatusUnauthorized: int := 401
  const StatusInternalServerError: int := 500

  /** A response entity: a bare string, a `{"description": ...}` object, or
      a listing page. */
  datatype Body = Entity(text: string) | Description(text: string) | Listing(page: Page)

  datatype Response = Response(status: int, body: Body)

  /** The same text guards all three writing endpoints. */
  const UnauthorizedMessage: string := "Unauthorized: only authenticated users can update product ratings."
  const AddedMessage: string := "Product added successfully"
  const RatingUpdatedMessage: string := "Product rating and comment count updated successfully"
  const DeletedMessage: string := "Product deleted successfully."

  const Unauthorized: Response := Response(StatusUnauthorized, Entity(UnauthorizedMessage))

  /** The catch of `DynamoDbException`: status 500 with the exception's message. */
  function StoreFailure(message: string): Response {
    Response(StatusInternalServerError, Entity(message))
  }

  // ---------------------------------------------------------------------
  // Fault-tolerance settings, as configured; their runtime is not modelled.

  datatype Policy = Policy(timeoutSeconds: nat, maxRetries: nat, requestVolumeThreshold: nat, bulkhead: nat)

  const GetProductPolicy: Policy := Policy(2, 3, 4, 5)
  const GetProductsPolicy: Policy := Policy(5, 3, 4, 10)
  const AddProductPolicy: Policy := Policy(2, 3, 4, 5)
  const UpdateProductRatingPolicy: Policy := Policy(2, 3, 4, 5)
  const DeleteProductPolicy: Policy := Policy(2, 3, 4, 5)

  // ---------------------------------------------------------------------
  // Fallback responses

  const ProductUnavailable: string := "Details are not available at the moment for productId: "
  const ProductsUnavailable: string := "Unable to fetch products at the moment. Please try again later."
  const AddUnavailable: string := "Unable to add product at the moment for product: "
  const RatingUnavailable: string := "Unable to update product rating at the moment for productId: "
  const DeleteUnavailable: string := "Unable to delete product at the moment for productId: "

  /** A 200 response whose description is a fixed prefix followed by the
      request value verbatim, or by "null" when it is absent. */
  function Apology(prefix: string, subject: JString): (r: Response)
    ensures r.status == StatusOk && r.body.Description? && |r.body.text| == |prefix| + |Text(subject)|
    ensures r.body.text[..|prefix|] == prefix && r.body.text[|prefix|..] == Text(subject)
  {
    Response(StatusOk, Description(prefix + Text(subject)))
  }

  function GetProductFallback(productId: JString): (r: Response)
    ensures r.status == StatusOk && r.body.Description? && |r.body.text| >= |ProductUnavailable|
    ensures r.body.text[..|ProductUnavailable|] == ProductUnavailable
    ensures r.body.text[|ProductUnavailable|..] == Text(productId)
  {
    Apology(ProductUnavailable, productId)
  }

  /** The listing fallback ignores every parameter. */
  function GetProductsFallback(searchTerm: JString, sortBy: JString, sortOrder: JString, category: JString,
                               page: JInteger, pageSize: JInteger): (r: Response)
    ensures r.status == StatusOk && r.body == Description(ProductsUnavailable)
  {
    Response(StatusOk, Description(ProductsUnavailable))
  }

  /** `product.getProductName()` on a null product throws again. */
  function AddProductFallback(product: Product?): (r: Outcome<Response>)
    reads product
    ensures product == null <==> r == Thrown(NullPointer)
    ensures product != null ==>
              && r.Done? && r.value.status == StatusOk && r.value.body.Description?
              && |r.value.body.text| >= |AddUnavailable|
              && r.value.body.text[..|AddUnavailable|] == AddUnavailable
              && r.value.body.text[|AddUnavailable|..] == Text(product.Fields().productName)
  {
    if product == null then Thrown(NullPointer) else Done(Apology(AddUnavailable, product.Fields().productName))
  }

  function UpdateProductRatingFallback(productId: JString, avgRating: real, action: JString): (r: Response)
    ensures r.status == StatusOk && r.body.Description? && |r.body.text| >= |RatingUnavailable|
    ensures r.body.text[..|RatingUnavailable|] == RatingUnavailable
    ensures r.body.text[|RatingUnavailable|..] == Text(productId)
  {
    Apology(RatingUnavailable, productId)
  }

  function DeleteProductFallback(productId: JString): (r: Response)
    ensures r.status == StatusOk && r.body.Description? && |r.body.text| >= |DeleteUnavailable|
    ensures r.body.text[..|DeleteUnavailable|] == DeleteUnavailable
    ensures r.body.text[|DeleteUnavailable|..] == Text(productId)
  {
    Apology(DeleteUnavailable, productId)
  }

  // ---------------------------------------------------------------------
  // The item `addProduct` puts

  /** The nine attribute names of a stored product. */
  const ProductAttributes: set<string> := {"productId", "AverageRating", "categoryName", "imageURL", "Price",
                                           "productName", "Description", "commentsCount", "discountPrice"}

  /** The item built from a product's fields; its `description` is stored as
      `Description`, and the numbers as numbers. */
  function ProductItem(f: ProductFields): Item {
    map["productId" := S(f.productId),
        "AverageRating" := N(f.AverageRating),
        "categoryName" := S(f.categoryName),
        "imageURL" := S(f.imageURL),
        "Price" := N(f.Price),
        "productName" := S(f.productName),
        "Description" := S(f.description),
        "commentsCount" := N(f.commentsCount as real),
        "discountPrice" := N(f.discountPrice)]
  }

  /** The strings the item stores: the product's own id, never a
      generated one, and its `description` under `Description`. */
  lemma ProductItemStrings(f: ProductFields)
    ensures var item := ProductItem(f);
      && item["productId"] == S(f.productId)
      && item["categoryName"] == S(f.categoryName)
      && item["imageURL"] == S(f.imageURL)
      && item["productName"] == S(f.productName)
      && item["Description"] == S(f.description)
  {
  }

  /** The item has exactly the nine attributes and is keyed by the
      product's id. */
  lemma ProductItemShape(f: ProductFields)
    ensures ProductItem(f).Keys == ProductAttributes
    ensures KeyOf(ProductItem(f)) == f.productId
  {
    assert KeyAttribute == "productId";
    ProductItemStrings(f);
  }

  /** The put succeeds exactly when the id is non-null, non-empty and at
      most 2048 bytes long, the four other string fields are non-null, and
      the rating, price and discount price are numbers the store accepts
      (`commentsCount`, an `int`, always is); it
      then stores the item under that id, replacing any
      earlier product with the same id, and leaves every other product. */
  lemma AddProductPut(table: map<string, Item>, f: ProductFields)
    ensures PutItem(table, ProductItem(f)).Ok? <==>
            f.productId.Some? && ValidKey(f.productId.value) && f.categoryName.Some? && f.imageURL.Some? && f.productName.Some? && f.description.Some?
            && ValidNumber(f.AverageRating) && ValidNumber(f.Price) && ValidNumber(f.discountPrice)
    ensures PutItem(table, ProductItem(f)).Ok? ==>
              var t := PutItem(table, ProductItem(f)).value;
              t.Keys == table.Keys + {f.productId.value} && t[f.productId.value] == ProductItem(f) &&
              forall k :: k in table && k != f.productId.value ==> t[k] == table[k]
  {
    ProductItemShape(f);
    ProductItemStrings(f);
    var item := ProductItem(f);
    IntegerNumber(f.commentsCount);
    if f.productId.Some? && ValidKey(f.productId.value) && f.categoryName.Some? && f.imageURL.Some? && f.productName.Some? && f.description.Some?
            && ValidNumber(f.AverageRating) && ValidNumber(f.Price) && ValidNumber(f.discountPrice) {
      assert forall a :: a in item ==> item[a] != S(None);
    } else if !ValidNumber(f.AverageRating) {
      assert item["AverageRating"] == N(f.AverageRating);
    } else if !ValidNumber(f.Price) {
      assert item["Price"] == N(f.Price);
    } else if !ValidNumber(f.discountPrice) {
      assert item["discountPrice"] == N(f.discountPrice);
    }
  }

  // ---------------------------------------------------------------------
  // The update `updateProductRating` sends

  /** The lookup of `action` in the table `add -> 1, delete -> -1,
      zero -> 0`; a missing or null action counts 0. */
  function CommentsDelta(action: JString): (r: int)
    ensures r == 1 <==> action == Some("add")
    ensures r == -1 <==> action == Some("delete")
    ensures r == 0 <==> action != Some("add") && action != Some("delete")
  {
    var updateValues := map["add" := 1, "delete" := -1, "zero" := 0];
    if action.Some? && action.value in updateValues then updateValues[action.value] else 0
  }

  /** `AverageRating` is overwritten, `commentsCount` is added to. */
  function RatingUpdates(avgRating: real, action: JString): map<string, AttributeUpdate> {
    map["AverageRating" := Put(N(avgRating)), "commentsCount" := Add(N(CommentsDelta(action) as real))]
  }

  /** The item the update starts from. */
  function Existing(table: map<string, Item>, productId: string): Item {
    if productId in table then table[productId] else map[KeyAttribute := S(Some(productId))]
  }

  /** The update fails only for an empty or over-long id, for a rating
      outside the store's number range, when the stored `commentsCount` is
      a string, or when adding the delta takes it out of that range.
      Otherwise the rating becomes `avgRating` whatever it was, the count
      grows by the action's delta (from 0 when absent), every other
      attribute of the product is kept, and a product that did not exist is
      created holding only its id and these two attributes. */
  lemma RatingUpdateEffect(table: map<string, Item>, productId: string, avgRating: real, action: JString)
    ensures var before := Existing(table, productId);
            UpdateItem(table, productId, RatingUpdates(avgRating, action)).Ok? <==>
            && ValidKey(productId) && ValidNumber(avgRating)
            && ("commentsCount" in before ==>
                  before["commentsCount"].N? && ValidNumber(before["commentsCount"].n + CommentsDelta(action) as real))
    ensures var before := Existing(table, productId);
            var r := UpdateItem(table, productId, RatingUpdates(avgRating, action));
            r.Ok? ==>
              var after := r.value[productId];
              && after["AverageRating"] == N(avgRating)
              && after["commentsCount"] ==
                   N((if "commentsCount" in before then before["commentsCount"].n else 0.0) + CommentsDelta(action) as real)
              && after.Keys == before.Keys + {"AverageRating", "commentsCount"}
              && (forall a :: a in before && a != "AverageRating" && a != "commentsCount" ==> after[a] == before[a])
  {
    var before := Existing(table, productId);
    var updates := RatingUpdates(avgRating, action);
    assert updates.Keys == {"AverageRating", "commentsCount"};
    IntegerNumber(CommentsDelta(action));
  }

  // ---------------------------------------------------------------------
  // The listing

  /** The store's scan of a table under a filter; its own evaluation of the
      filter expression and its result order are not modelled. */
  type Scan = (map<string, Item>, Option<ScanFilter>) -> StoreResult<seq<Item>>

  /** Lines 164-199 on the scanned items: the ordering (whose key extractor
      throws on an item without a numeric key), then the page.  A listing
      counts every scanned item and shows only scanned items. */
  function ListItems(items: seq<Item>, sortBy: JString, sortOrder: JString, page: Int32, pageSize: Int32)
    : (r: Outcome<Response>)
    requires |items| <= IntMax
    ensures r == Thrown(NullPointer) <==> SortThrows(items, sortBy)
    ensures r.Done? ==>
              && r.value.status == StatusOk && r.value.body.Listing?
              && r.value.body.page.totalProducts == |items|
              && multiset(r.value.body.page.products) <= multiset(items)
  {
    if SortThrows(items, sortBy) then Thrown(NullPointer)
    else
      var ordered := Ordered(items, sortBy, sortOrder);
      match Paginate(ordered, page, pageSize)
      case Thrown(e) => Thrown(e)
      case Done(p) =>
        SliceWithin(ordered, p.currentRangeEnd - |p.products|, p.currentRangeEnd);
        Done(Response(StatusOk, Listing(p)))
  }

  /** `getProducts` on a table: the defaults for `page` and `pageSize`, the
      scan with the built filter, whose failure answers 500, and the listing
      of what it returns. */
  function ListProducts(table: map<string, Item>, scan: Scan, searchTerm: JString, sortBy: JString,
                        sortOrder: JString, category: JString, page: JInteger, pageSize: JInteger)
    : (r: Outcome<Response>)
    requires scan(table, FilterFor(searchTerm, category)).Ok? ==>
               |scan(table, FilterFor(searchTerm, category)).value| <= IntMax
    ensures scan(table, FilterFor(searchTerm, category)).Fault? ==>
              r == Done(StoreFailure(scan(table, FilterFor(searchTerm, category)).message))
  {
    match scan(table, FilterFor(searchTerm, category))
    case Fault(message) => Done(StoreFailure(message))
    case Ok(items) => ListItems(items, sortBy, sortOrder, OrDefault(page, DefaultPage), OrDefault(pageSize, DefaultPageSize))
  }

  /** Lines 164-199 step by step: the ordering of `OrderItems`, then the
      page. */
  method ShapeListing(items: seq<Item>, sortBy: JString, sortOrder: JString, page: Int32, pageSize: Int32)
    returns (response: Outcome<Response>)
    requires |items| <= IntMax
    ensures response == ListItems(items, sortBy, sortOrder, page, pageSize)
  {
    if SortThrows(items, sortBy) {
      return Thrown(NullPointer);
    }
    var ordered := OrderItems(items, sortBy, sortOrder);
    var paged := Paginate(ordered, page, pageSize);
    if paged.Thrown? {
      return Thrown(paged.exception);
    }
    response := Done(Response(StatusOk, Listing(paged.value)));
  }

  /** A listing within range is 200 with the ordered scan's window
      `[start, end)`, the page count, the size of the whole scan, and the
      1-based range. */
  lemma ListingWindow(table: map<string, Item>, scan: Scan, searchTerm: JString, sortBy: JString,
                      sortOrder: JString, category: JString, page: Int32, pageSize: Int32)
    requires scan(table, FilterFor(searchTerm, category)).Ok?
    requires |scan(table, FilterFor(searchTerm, category)).value| <= IntMax
    requires !SortThrows(scan(table, FilterFor(searchTerm, category)).value, sortBy)
    requires page >= 1 && pageSize >= 1 && page * pageSize <= IntMax
    requires (page - 1) * pageSize <= |scan(table, FilterFor(searchTerm, category)).value|
    ensures var items := scan(table, FilterFor(searchTerm, category)).value;
            var ordered := Ordered(items, sortBy, sortOrder);
            var start := (page - 1) * pageSize;
            var end := Min(start + pageSize, |items|);
            && |ordered| == |items|
            && ListProducts(table, scan, searchTerm, sortBy, sortOrder, category, Some(page), Some(pageSize)) ==
                 Done(Response(StatusOk, Listing(Page(ordered[start..end], TotalPages(|items|, pageSize),
                                                      |items|, start + 1, end))))
  {
    var items := scan(table, FilterFor(searchTerm, category)).value;
    PaginateWindow(Ordered(items, sortBy, sortOrder), page, pageSize);
  }

  /** Without `page` and `pageSize` the listing is the first four ordered
      items. */
  lemma ListingDefaults(table: map<string, Item>, scan: Scan, searchTerm: JString, sortBy: JString,
                        sortOrder: JString, category: JString)
    requires scan(table, FilterFor(searchTerm, category)).Ok?
    requires |scan(table, FilterFor(searchTerm, category)).value| <= IntMax
    requires !SortThrows(scan(table, FilterFor(searchTerm, category)).value, sortBy)
    ensures var items := scan(table, FilterFor(searchTerm, category)).value;
            var end := Min(4, |items|);
            |Ordered(items, sortBy, sortOrder)| == |items| &&
            ListProducts(table, scan, searchTerm, sortBy, sortOrder, category, None, None) ==
              Done(Response(StatusOk, Listing(Page(Ordered(items, sortBy, sortOrder)[..end],
                                                   TotalPages(|items|, 4), |items|, 1, end))))
  {
    var items := scan(table, FilterFor(searchTerm, category)).value;
    PaginateWindow(Ordered(items, sortBy, sortOrder), 1, 4);
    assert Ordered(items, sortBy, sortOrder)[0..Min(4, |items|)] == Ordered(items, sortBy, sortOrder)[..Min(4, |items|)];
  }

  /** A sort on an attribute some item lacks fails with a
      `NullPointerException`, which the endpoint does not catch; so does a
      page past the end of the listing, with `IllegalArgumentException`. */
  lemma ListingThrows(table: map<string, Item>, scan: Scan, searchTerm: JString, sortBy: JString,
                      sortOrder: JString, category: JString, page: Int32, pageSize: Int32)
    requires scan(table, FilterFor(searchTerm, category)).Ok?
    requires |scan(table, FilterFor(searchTerm, category)).value| <= IntMax
    ensures SortThrows(scan(table, FilterFor(searchTerm, category)).value, sortBy) ==>
              ListProducts(table, scan, searchTerm, sortBy, sortOrder, category, Some(page), Some(pageSize)) ==
              Thrown(NullPointer)
    ensures !SortThrows(scan(table, FilterFor(searchTerm, category)).value, sortBy) &&
            page >= 1 && pageSize >= 1 && page * pageSize <= IntMax &&
            (page - 1) * pageSize > |scan(table, FilterFor(searchTerm, category)).value| ==>
              ListProducts(table, scan, searchTerm, sortBy, sortOrder, category, Some(page), Some(pageSize)) ==
              Thrown(IllegalArgument)
  {
    var items := scan(table, FilterFor(searchTerm, category)).value;
    if !SortThrows(items, sortBy) && page >= 1 && pageSize >= 1 && page * pageSize <= IntMax {
      PaginateWindow(Ordered(items, sortBy, sortOrder), page, pageSize);
    }
  }

  // ---------------------------------------------------------------------
  // The resource

  /** One instance serves one request.  `dynamoDB` is the client an
      endpoint builds before using the store: null until then. */
  class CatalogResource {
    /** `jwt != null`. */
    const authenticated: bool
    var dynamoDB: Table?

    constructor (authenticated: bool)
      ensures this.authenticated == authenticated && dynamoDB == null
    {
      this.authenticated := authenticated;
      dynamoDB := null;
    }

    /** `GET /products`: builds the client, then lists. */
    method GetProducts(store: Table, scan: Scan, searchTerm: JString, sortBy: JString, sortOrder: JString,
                       category: JString, page: JInteger, pageSize: JInteger)
      returns (response: Outcome<Response>)
      requires scan(store.items, FilterFor(searchTerm, category)).Ok? ==>
                 |scan(store.items, FilterFor(searchTerm, category)).value| <= IntMax
      modifies this
      ensures dynamoDB == store
      ensures response == ListProducts(store.items, scan, searchTerm, sortBy, sortOrder, category, page, pageSize)
    {
      dynamoDB := store;
      var p := page;
      if p == None {
        p := Some(DefaultPage);
      }
      var ps := pageSize;
      if ps == None {
        ps := Some(DefaultPageSize);
      }
      var filter := BuildFilter(searchTerm, category);
      var scanned := scan(dynamoDB.items, filter);
      if scanned.Fault? {
        return Done(StoreFailure(scanned.message));
      }
      assert p.value == OrDefault(page, DefaultPage) && ps.value == OrDefault(pageSize, DefaultPageSize);
      response := ShapeListing(scanned.value, sortBy, sortOrder, p.value, ps.value);
    }

    /** `POST /products`: without a token, 401 and no store call; otherwise
        the client is built, the item is filled from the product's getters
        and put.  A null product throws before the store is reached; a
        refused put or an `outage` of the store answers 500. */
    method AddProduct(store: Table, product: Product?, outage: Option<string>)
      returns (response: Outcome<Response>)
      modifies this, store
      ensures !authenticated ==>
                response == Done(Unauthorized) && dynamoDB == old(dynamoDB) && store.items == old(store.items)
      ensures authenticated ==> dynamoDB == store
      ensures authenticated && product == null ==>
                response == Thrown(NullPointer) && store.items == old(store.items)
      ensures authenticated && product != null && outage.Some? ==>
                response == Done(StoreFailure(outage.value)) && store.items == old(store.items)
      ensures authenticated && product != null && outage.None? ==>
                match PutItem(old(store.items), ProductItem(product.Fields()))
                case Ok(t) => response == Done(Response(StatusCreated, Entity(AddedMessage))) && store.items == t
                case Fault(m) => response == Done(StoreFailure(m)) && store.items == old(store.items)
    {
      if !authenticated {
        return Done(Unauthorized);
      }
      dynamoDB := store;
      if product == null {
        return Thrown(NullPointer);
      }
      var item: Item := map[];
      var id := product.GetProductId();
      item := item["productId" := S(id)];
      var rating := product.GetAverageRating();
      item := item["AverageRating" := N(rating)];
      var categoryName := product.GetCategoryName();
      item := item["categoryName" := S(categoryName)];
      var imageURL := product.GetImageURL();
      item := item["imageURL" := S(imageURL)];
      var price := product.GetPrice();
      item := item["Price" := N(price)];
      var productName := product.GetProductName();
      item := item["productName" := S(productName)];
      var description := product.GetDescription();
      item := item["Description" := S(description)];
      var commentsCount := product.GetCommentsCount();
      item := item["commentsCount" := N(commentsCount as real)];
      var discountPrice := product.GetDiscountPrice();
      item := item["discountPrice" := N(discountPrice)];
      assert item == ProductItem(product.Fields());
      if outage.Some? {
        return Done(StoreFailure(outage.value));
      }
      var put := PutItem(dynamoDB.items, item);
      match put {
        case Ok(t) =>
          dynamoDB.items := t;
          response := Done(Response(StatusCreated, Entity(AddedMessage)));
        case Fault(m) =>
          response := Done(StoreFailure(m));
      }
    }

    /** `PUT /products/{productId}`: without a token, 401 and no store call;
        otherwise the client is built and the product's rating and comment
        count are updated. */
    method UpdateProductRating(store: Table, productId: string, avgRating: real, action: JString,
                               outage: Option<string>)
      returns (response: Outcome<Response>)
      modifies this, store
      ensures !authenticated ==>
                response == Done(Unauthorized) && dynamoDB == old(dynamoDB) && store.items == old(store.items)
      ensures authenticated ==> dynamoDB == store
      ensures authenticated && outage.Some? ==>
                response == Done(StoreFailure(outage.value)) && store.items == old(store.items)
      ensures authenticated && outage.None? ==>
                match UpdateItem(old(store.items), productId, RatingUpdates(avgRating, action))
                case Ok(t) => response == Done(Response(StatusOk, Entity(RatingUpdatedMessage))) && store.items == t
                case Fault(m) => response == Done(StoreFailure(m)) && store.items == old(store.items)
    {
      if !authenticated {
        return Done(Unauthorized);
      }
      dynamoDB := store;
      var attributeUpdates: map<string, AttributeUpdate> := map[];
      attributeUpdates := attributeUpdates["AverageRating" := Put(N(avgRating))];
      var updateValue := CommentsDelta(action);
      attributeUpdates := attributeUpdates["commentsCount" := Add(N(updateValue as real))];
      assert attributeUpdates == RatingUpdates(avgRating, action);
      if outage.Some? {
        return Done(StoreFailure(outage.value));
      }
      var updated := UpdateItem(dynamoDB.items, productId, attributeUpdates);
      match updated {
        case Ok(t) =>
          dynamoDB.items := t;
          response := Done(Response(StatusOk, Entity(RatingUpdatedMessage)));
        case Fault(m) =>
          response := Done(StoreFailure(m));
      }
    }

    /** `DELETE /products/{productId}` as written: it never builds the
        client, so it uses whatever `dynamoDB` holds, and on a null client
        the call throws. */
    method DeleteProduct(productId: string, outage: Option<string>) returns (response: Outcome<Response>)
      modifies dynamoDB
      ensures !authenticated ==> response == Done(Unauthorized)
      ensures !authenticated && dynamoDB != null ==> dynamoDB.items == old(dynamoDB.items)
      ensures authenticated && dynamoDB == null ==> response == Thrown(NullPointer)
      ensures authenticated && dynamoDB != null && outage.Some? ==>
                response == Done(StoreFailure(outage.value)) && dynamoDB.items == old(dynamoDB.items)
      ensures authenticated && dynamoDB != null && outage.None? ==>
                match DeleteItem(old(dynamoDB.items), productId)
                case Ok(t) => response == Done(Response(StatusOk, Entity(DeletedMessage))) && dynamoDB.items == t
                case Fault(m) => response == Done(StoreFailure(m)) && dynamoDB.items == old(dynamoDB.items)
    {
      if !authenticated {
        return Done(Unauthorized);
      }
      if dynamoDB == null {
        return Thrown(NullPointer);
      }
      if outage.Some? {
        return Done(StoreFailure(outage.value));
      }
      var deleted := DeleteItem(dynamoDB.items, productId);
      match deleted {
        case Ok(t) =>
          dynamoDB.items := t;
          response := Done(Response(StatusOk, Entity(DeletedMessage)));
        case Fault(m) =>
          response := Done(StoreFailure(m));
      }
    }

    /** The delete with the client built first, as the other endpoints do. */
    method DeleteProductBuildingClient(store: Table, productId: string, outage: Option<string>)
      returns (response: Outcome<Response>)
      modifies this, store
      ensures !authenticated ==>
                response == Done(Unauthorized) && dynamoDB == old(dynamoDB) && store.items == old(store.items)
      ensures authenticated ==> dynamoDB == store
      ensures authenticated && outage.Some? ==>
                response == Done(StoreFailure(outage.value)) && store.items == old(store.items)
      ensures authenticated && outage.None? ==>
                match DeleteItem(old(store.items), productId)
                case Ok(t) => response == Done(Response(StatusOk, Entity(DeletedMessage))) && store.items == t
                case Fault(m) => response == Done(StoreFailure(m)) && store.items == old(store.items)
    {
      if !authenticated {
        return Done(Unauthorized);
      }
      dynamoDB := store;
      if outage.Some? {
        return Done(StoreFailure(outage.value));
      }
      var deleted := DeleteItem(dynamoDB.items, productId);
      match deleted {
        case Ok(t) =>
          dynamoDB.items := t;
          response := Done(Response(StatusOk, Entity(DeletedMessage)));
        case Fault(m) =>
          response := Done(StoreFailure(m));
      }
    }
  }

  /** An authenticated delete on a fresh, request-scoped resource: the
      client was never built, so the request fails with a
      `NullPointerException` and the product stays. */
  method DeleteOnFreshResource(items: map<string, Item>, productId: string)
    returns (response: Outcome<Response>, after: map<string, Item>)
    ensures response == Thrown(NullPointer)
    ensures after == items
  {
    var store := new Table(items);
    var resource := new CatalogResource(true);
    response := resource.DeleteProduct(productId, None);
    after := store.items;
  }

  /** The same request once the client is built: for a key the store
      accepts, 200 and exactly that product is gone; an empty or over-long
      key is refused with 500 and the table stays. */
  method DeleteOnFreshResourceBuildingClient(items: map<string, Item>, productId: string)
    returns (response: Outcome<Response>, after: map<string, Item>)
    ensures ValidKey(productId) ==>
              && response == Done(Response(StatusOk, Entity(DeletedMessage)))
              && productId !in after && after.Keys == items.Keys - {productId}
              && forall k :: k in after ==> after[k] == items[k]
    ensures !ValidKey(productId) ==> response == Done(StoreFailure(ValidationMessage)) && after == items
  {
    var store := new Table(items);
    var resource := new CatalogResource(true);
    response := resource.DeleteProductBuildingClient(store, productId, None);
    after := store.items;
  }

  /** Without a token no writing endpoint reaches the store: the table is
      the same after an add, an update and a delete. */
  method UnauthenticatedWritesChangeNothing(items: map<string, Item>, product: Product, productId: string,
                                            avgRating: real, action: JString)
    returns (responses: seq<Outcome<Response>>, after: map<string, Item>)
    ensures responses == [Done(Unauthorized), Done(Unauthorized), Done(Unauthorized)]
    ensures after == items
  {
    var store := new Table(items);
    var resource := new CatalogResource(false);
    var added := resource.AddProduct(store, product, None);
    var rated := resource.UpdateProductRating(store, productId, avgRating, action, None);
    var deleted := resource.DeleteProduct(productId, None);
    responses := [added, rated, deleted];
    after := store.items;
  }
}
