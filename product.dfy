/** The `Product` bean: the nine-field record a client posts to add a
    product.  Every field is private, read by its getter and overwritten by
    its setter, with no validation. */
module ProductBean {
  import opened Java

  /** The nine fields of a `Product` at one moment. */
  datatype ProductFields = ProductFields(
    productId: JString,
    categoryName: JString,
    imageURL: JString,
    Price: real,
    AverageRating: real,
    productName: JString,
    description: JString,
    commentsCount: Int32,
    discountPrice: real)

  /** The fields of a `Product` nobody has set yet: null strings, zero numbers. */
  const Unset: ProductFields := ProductFields(None, None, None, 0.0, 0.0, None, None, 0, 0.0)

  class Product {
    var productId: JString
    var categoryName: JString
    var imageURL: JString
    var Price: real
    var AverageRating: real
    var productName: JString
    var description: JString
    var commentsCount: Int32
    var discountPrice: real

    /** The object's state as one value. */
    function Fields(): ProductFields
      reads this
    {
      ProductFields(productId, categoryName, imageURL, Price, AverageRating,
                    productName, description, commentsCount, discountPrice)
    }

    /** The implicit no-argument constructor: Java's default field values. */
    constructor ()
      ensures Fields() == Unset
    {
      productId, categoryName, imageURL := None, None, None;
      Price, AverageRating := 0.0, 0.0;
      productName, description := None, None;
      commentsCount, discountPrice := 0, 0.0;
    }

    method GetProductId() returns (id: JString)
      ensures id == Fields().productId
    {
      id := productId;
    }

    method SetProductId(id: JString)
      modifies this
      ensures Fields() == old(Fields()).(productId := id)
    {
      productId := id;
    }

    method GetCategoryName() returns (name: JString)
      ensures name == Fields().categoryName
    {
      name := categoryName;
    }

    method SetCategoryName(name: JString)
      modifies this
      ensures Fields() == old(Fields()).(categoryName := name)
    {
      categoryName := name;
    }

    method GetImageURL() returns (url: JString)
      ensures url == Fields().imageURL
    {
      url := imageURL;
    }

    method SetImageURL(url: JString)
      modifies this
      ensures Fields() == old(Fields()).(imageURL := url)
    {
      imageURL := url;
    }

    method GetPrice() returns (price: real)
      ensures price == Fields().Price
    {
      price := Price;
    }

    method SetPrice(price: real)
      modifies this
      ensures Fields() == old(Fields()).(Price := price)
    {
      Price := price;
    }

    method GetAverageRating() returns (rating: real)
      ensures rating == Fields().AverageRating
    {
      rating := AverageRating;
    }

    method SetAverageRating(rating: real)
      modifies this
      ensures Fields() == old(Fields()).(AverageRating := rating)
    {
      AverageRating := rating;
    }

    method GetProductName() returns (name: JString)
      ensures name == Fields().productName
    {
      name := productName;
    }

    method SetProductName(name: JString)
      modifies this
      ensures Fields() == old(Fields()).(productName := name)
    {
      productName := name;
    }

    method GetDescription() returns (text: JString)
      ensures text == Fields().description
    {
      text := description;
    }

    method SetDescription(text: JString)
      modifies this
      ensures Fields() == old(Fields()).(description := text)
    {
      description := text;
    }

    method GetCommentsCount() returns (count: Int32)
      ensures count == Fields().commentsCount
    {
      count := commentsCount;
    }

    method SetCommentsCount(count: Int32)
      modifies this
      ensures Fields() == old(Fields()).(commentsCount := count)
    {
      commentsCount := count;
    }

    method GetDiscountPrice() returns (price: real)
      ensures price == Fields().discountPrice
    {
      price := discountPrice;
    }

    method SetDiscountPrice(price: real)
      modifies this
      ensures Fields() == old(Fields()).(discountPrice := price)
    {
      discountPrice := price;
    }
  }

  /** Any value can be stored and read back, including a negative price, a
      rating outside 0 to 5, a negative comment count and a null id: a
      setter followed by its getter returns what was set, and the other
      eight fields keep their values. */
  method SetThenGet(p: Product, id: JString, price: real, rating: real, count: Int32)
    returns (idRead: JString, priceRead: real, ratingRead: real, countRead: Int32)
    modifies p
    ensures idRead == id && priceRead == price && ratingRead == rating && countRead == count
    ensures p.Fields() == old(p.Fields()).(productId := id, Price := price,
                                           AverageRating := rating, commentsCount := count)
  {
    p.SetProductId(id);
    p.SetPrice(price);
    p.SetAverageRating(rating);
    p.SetCommentsCount(count);
    idRead := p.GetProductId();
    priceRead := p.GetPrice();
    ratingRead := p.GetAverageRating();
    countRead := p.GetCommentsCount();
  }
}
