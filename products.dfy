/** `ProductService`: the product table, the image table with its per-product
    cap, the partial update, and the naming of stored image files. */
module Products {
  import opened Wrappers
  import opened Text

  /** `ProductImage.MAXIMUM_IMAGES_PER_PRODUCT`, whose definition is not part of
      this model; 5 is the value the upload message states. */
  const MaxImagesPerProduct: nat := 5

  const InvalidImageFormat: string := "Invalid image format"

  function CategoryNotFound(id: nat): string { "Cannot find category with id: " + Decimal(id) }
  function ProductNotFound(id: nat): string { "Cannot find product with id =" + Decimal(id) }
  function TooManyImages(): string { "Number of images must be <= " + Decimal(MaxImagesPerProduct) }

  /** A product row; the price is kept as an integer. */
  datatype Product = Product(
    id: nat, name: Option<string>, price: int, thumbnail: Option<string>,
    description: Option<string>, categoryId: nat)

  /** The request body of create and update; `None` is a field left null. */
  datatype ProductDTO = ProductDTO(
    name: Option<string>, price: int, thumbnail: Option<string>,
    description: Option<string>, categoryId: nat)

  datatype ProductImage = ProductImage(id: nat, productId: nat, imageUrl: string)

  /** The parts of a multipart upload the core looks at. */
  datatype UploadFile = UploadFile(size: nat, contentType: Option<string>, originalFilename: Option<string>)

  predicate UniqueProductIds(ps: seq<Product>) {
    forall i, j :: 0 <= i < j < |ps| ==> ps[i].id != ps[j].id
  }

  /** `productRepository.findById`: the position of the product with id `id`. */
  function ProductIndex(ps: seq<Product>, id: nat): (r: Option<nat>)
    ensures r.Some? ==> r.value < |ps| && ps[r.value].id == id
  {
    if ps == [] then None
    else if ps[0].id == id then Some(0)
    else match ProductIndex(ps[1..], id)
      case None => None
      case Some(k) => Some(k + 1)
  }

  /** The lookup misses exactly when no row has the id. */
  lemma {:induction false} ProductIndexMisses(ps: seq<Product>, id: nat)
    ensures ProductIndex(ps, id).None? <==> forall p :: p in ps ==> p.id != id
    decreases |ps|
  {
    if ps != [] {
      ProductIndexMisses(ps[1..], id);
      assert forall p :: p in ps ==> p == ps[0] || p in ps[1..];
    }
  }

  /** The rows whose id is in `ids`, in table order (`findProductsByIds`). */
  function WithIds(ps: seq<Product>, ids: seq<int>): (r: seq<Product>)
    ensures forall p :: p in r <==> p in ps && p.id in ids
    ensures |r| <= |ps|
  {
    if ps == [] then []
    else (if ps[0].id in ids then [ps[0]] else []) + WithIds(ps[1..], ids)
  }

  /** The table without the row with id `id` (`productRepository.delete`). */
  function WithoutProduct(ps: seq<Product>, id: nat): (r: seq<Product>)
    ensures forall p :: p in r <==> p in ps && p.id != id
    ensures |r| <= |ps|
    ensures UniqueProductIds(ps) ==> UniqueProductIds(r)
  {
    if ps == [] then []
    else (if ps[0].id == id then [] else [ps[0]]) + WithoutProduct(ps[1..], id)
  }

  lemma WithoutAbsentProduct(ps: seq<Product>, id: nat)
    requires forall p :: p in ps ==> p.id != id
    ensures WithoutProduct(ps, id) == ps
  {
  }

  /** `updateProduct`'s setters: the category always; name, description and
      thumbnail when given; the price when it is not negative. */
  function Updated(p: Product, dto: ProductDTO): Product {
    p.(name := if dto.name.Some? then dto.name else p.name,
       categoryId := dto.categoryId,
       price := if dto.price >= 0 then dto.price else p.price,
       description := if dto.description.Some? then dto.description else p.description,
       thumbnail := if dto.thumbnail.Some? then dto.thumbnail else p.thumbnail)
  }

  /** Applying the same update twice is applying it once. */
  lemma UpdateIdempotent(p: Product, dto: ProductDTO)
    ensures Updated(Updated(p, dto), dto) == Updated(p, dto)
  {
  }

  /** An update that gives no field and a negative price only moves the
      product to the named category. */
  lemma EmptyUpdateOnlyRecategorises(p: Product, dto: ProductDTO)
    requires dto.name.None? && dto.description.None? && dto.thumbnail.None? && dto.price < 0
    ensures Updated(p, dto) == p.(categoryId := dto.categoryId)
  {
  }

  /** A field given in the update wins over the stored value, and a field
      left null keeps it; the id never changes. */
  lemma UpdatedFields(p: Product, dto: ProductDTO)
    ensures Updated(p, dto).id == p.id && Updated(p, dto).categoryId == dto.categoryId
    ensures Updated(p, dto).name == (if dto.name.None? then p.name else dto.name)
    ensures Updated(p, dto).description == (if dto.description.None? then p.description else dto.description)
    ensures Updated(p, dto).thumbnail == (if dto.thumbnail.None? then p.thumbnail else dto.thumbnail)
    ensures dto.price < 0 ==> Updated(p, dto).price == p.price
    ensures dto.price >= 0 ==> Updated(p, dto).price == dto.price
  {
  }

  /** `productImageRepository.findByProductId`: the product's images, in table order. */
  function ImagesOf(images: seq<ProductImage>, productId: nat): (r: seq<ProductImage>)
    ensures |r| <= |images|
  {
    if images == [] then []
    else ImagesOf(images[..|images| - 1], productId)
         + (if images[|images| - 1].productId == productId then [images[|images| - 1]] else [])
  }

  /** Adding an image to one product leaves every other product's images alone. */
  lemma {:induction false} ImagesOfAppend(images: seq<ProductImage>, m: ProductImage, productId: nat)
    ensures ImagesOf(images + [m], productId)
            == ImagesOf(images, productId) + (if m.productId == productId then [m] else [])
  {
    assert (images + [m])[..|images + [m]| - 1] == images;
  }

  /** Images recorded for one product extend that product's list and no other. */
  lemma {:induction false} ImagesOfExtend(images: seq<ProductImage>, added: seq<ProductImage>, productId: nat)
    requires forall k :: 0 <= k < |added| ==> added[k].productId == productId
    ensures ImagesOf(images + added, productId) == ImagesOf(images, productId) + added
    decreases |added|
  {
    if added != [] {
      var init := added[..|added| - 1];
      var last := added[|added| - 1];
      assert added == init + [last];
      ImagesOfExtend(images, init, productId);
      AppendAssoc(images, init, [last]);
      ImagesOfAppend(images + init, last, productId);
      AppendAssoc(ImagesOf(images, productId), init, [last]);
    } else {
      assert images + added == images;
      assert ImagesOf(images, productId) + added == ImagesOf(images, productId);
    }
  }

  lemma AppendAssoc<T>(a: seq<T>, b: seq<T>, c: seq<T>)
    ensures (a + b) + c == a + (b + c)
  {
  }

  /** Exactly the product's images, none of another's. */
  lemma {:induction false} ImagesOfMembers(images: seq<ProductImage>, productId: nat, m: ProductImage)
    ensures m in ImagesOf(images, productId) <==> m in images && m.productId == productId
    decreases |images|
  {
    if images != [] {
      var init := images[..|images| - 1];
      ImagesOfMembers(init, productId, m);
      assert images == init + [images[|images| - 1]];
    }
  }

  /** No product holds more than one image past the cap: the invariant that
      `createProductImage`'s strict check actually keeps. */
  ghost predicate CapKept(images: seq<ProductImage>) {
    forall p: nat :: |ImagesOf(images, p)| <= MaxImagesPerProduct + 1
  }

  /** `isImageFile`: a content type is present and starts with "image/". */
  function IsImageFile(contentType: Option<string>): (r: bool)
    ensures r <==> contentType.Some? && |contentType.value| >= 6 && contentType.value[..6] == "image/"
  {
    contentType.Some? && StartsWith(contentType.value, "image/")
  }

  /** Every subtype of "image/" is accepted ... */
  lemma ImageSubtypesAccepted(subtype: string)
    ensures IsImageFile(Some("image/" + subtype))
  {
    assert ("image/" + subtype)[..6] == "image/";
  }

  /** ... and the comparison is case-sensitive, and a missing type is refused. */
  lemma ImageCheckIsCaseSensitive()
    ensures !IsImageFile(Some("IMAGE/png")) && !IsImageFile(None)
  {
    assert "IMAGE/png"[0] != "image/"[0];
  }

  /** `storeFile`'s checks and its answer: the file must be an image with an
      original name, and it is stored as `uuid + "_" + cleanPath(name)`. */
  function StoreFile(file: UploadFile, uuid: string, cleanPath: string -> string): (r: Result<string>)
    ensures r.Err? <==> !IsImageFile(file.contentType) || file.originalFilename.None?
    ensures r.Err? ==> r.error == InvalidImageFormat
    ensures r.Ok? ==> StartsWith(r.value, uuid + "_")
    ensures r.Ok? ==> r.value[|uuid| + 1..] == cleanPath(file.originalFilename.value)
  {
    if !IsImageFile(file.contentType) || file.originalFilename.None? then Err(InvalidImageFormat)
    else
      var name := uuid + "_" + cleanPath(file.originalFilename.value);
      assert name[..|uuid + "_"|] == uuid + "_";
      assert name[|uuid| + 1..] == cleanPath(file.originalFilename.value);
      Ok(name)
  }

  /** Two stores under different UUIDs of the same length never pick the same
      name, whatever the original names were. */
  lemma StoredNamesDiffer(f: UploadFile, g: UploadFile, u: string, v: string, cleanPath: string -> string)
    requires |u| == |v| && u != v
    requires StoreFile(f, u, cleanPath).Ok? && StoreFile(g, v, cleanPath).Ok?
    ensures StoreFile(f, u, cleanPath).value != StoreFile(g, v, cleanPath).value
  {
    var a := StoreFile(f, u, cleanPath).value;
    var b := StoreFile(g, v, cleanPath).value;
    assert a[..|u|] == u;
    assert b[..|v|] == v;
  }

  class ProductService {
    var products: seq<Product>
    var images: seq<ProductImage>
    var nextProductId: nat
    var nextImageId: nat
    const categories: set<nat>

    ghost predicate Valid()
      reads this
    {
      UniqueProductIds(products)
      && (forall i :: 0 <= i < |products| ==> products[i].id < nextProductId)
      && (forall i :: 0 <= i < |images| ==> images[i].id < nextImageId)
    }

    constructor (categories: set<nat>)
      ensures Valid() && products == [] && images == [] && this.categories == categories
    {
      products := [];
      images := [];
      nextProductId := 1;
      nextImageId := 1;
      this.categories := categories;
    }

    /** The category must exist; the new row takes the next id. */
    method CreateProduct(dto: ProductDTO) returns (r: Result<Product>)
      requires Valid()
      modifies this
      ensures Valid() && images == old(images)
      ensures dto.categoryId !in categories ==>
        r == Err(CategoryNotFound(dto.categoryId)) && products == old(products)
      ensures dto.categoryId in categories ==>
        r == Ok(Product(old(nextProductId), dto.name, dto.price, dto.thumbnail, dto.description, dto.categoryId))
        && products == old(products) + [r.value]
    {
      if dto.categoryId !in categories {
        return Err(CategoryNotFound(dto.categoryId));
      }
      var p := Product(nextProductId, dto.name, dto.price, dto.thumbnail, dto.description, dto.categoryId);
      products := products + [p];
      nextProductId := nextProductId + 1;
      r := Ok(p);
    }

    function GetProductById(id: nat): (r: Result<Product>)
      reads this
      ensures r.Ok? <==> exists p :: p in products && p.id == id
      ensures r.Ok? ==> r.value in products && r.value.id == id
      ensures r.Err? ==> r.error == ProductNotFound(id)
    {
      ProductIndexMisses(products, id);
      match ProductIndex(products, id)
      case None => Err(ProductNotFound(id))
      case Some(i) => Ok(products[i])
    }

    function FindProductsByIds(ids: seq<int>): (r: seq<Product>)
      reads this
      ensures forall p :: p in r <==> p in products && p.id in ids
    {
      WithIds(products, ids)
    }

    /** The product, then the category, must exist; the row is replaced in
        place by `Updated`. */
    method UpdateProduct(id: nat, dto: ProductDTO) returns (r: Result<Product>)
      requires Valid()
      modifies this
      ensures Valid() && images == old(images) && nextProductId == old(nextProductId)
      ensures ProductIndex(old(products), id).None? ==>
        r == Err(ProductNotFound(id)) && products == old(products)
      ensures (ProductIndex(old(products), id).Some? && dto.categoryId !in categories) ==>
        r == Err(CategoryNotFound(dto.categoryId)) && products == old(products)
      ensures r.Err? ==> products == old(products)
      ensures (ProductIndex(old(products), id).Some? && dto.categoryId in categories) ==>
        var i := ProductIndex(old(products), id).value;
        r == Ok(Updated(old(products)[i], dto)) && products == old(products)[i := r.value]
      ensures r.Ok? ==>
        dto.categoryId in categories
        && exists i :: (ProductIndex(old(products), id) == Some(i)
                        && r.value == Updated(old(products)[i], dto)
                        && products == old(products)[i := r.value])
    {
      var found := ProductIndex(products, id);
      if found.None? {
        return Err(ProductNotFound(id));
      }
      if dto.categoryId !in categories {
        return Err(CategoryNotFound(dto.categoryId));
      }
      var i := found.value;
      var p := Updated(products[i], dto);
      products := products[i := p];
      r := Ok(p);
    }

    /** Deleting an id that is not there is silently nothing. */
    method DeleteProduct(id: nat)
      requires Valid()
      modifies this
      ensures Valid() && images == old(images) && nextProductId == old(nextProductId)
      ensures products == WithoutProduct(old(products), id)
      ensures GetProductById(id).Err?
      ensures (forall p :: p in old(products) ==> p.id != id) ==> products == old(products)
    {
      ProductIndexMisses(products, id);
      if ProductIndex(products, id).Some? {
        products := WithoutProduct(products, id);
      } else {
        WithoutAbsentProduct(products, id);
      }
    }

    /** The product must exist, and the check lets a product that already
        holds exactly `MaxImagesPerProduct` images gain one more. */
    method CreateProductImage(productId: nat, imageUrl: string) returns (r: Result<ProductImage>)
      requires Valid()
      modifies this
      ensures Valid() && products == old(products) && nextProductId == old(nextProductId)
      ensures ProductIndex(products, productId).None? ==>
        r == Err(ProductNotFound(productId)) && images == old(images)
      ensures (ProductIndex(products, productId).Some?
               && |ImagesOf(old(images), productId)| > MaxImagesPerProduct) ==>
        r == Err(TooManyImages()) && images == old(images)
      ensures r.Err? ==> images == old(images)
      ensures (ProductIndex(products, productId).Some?
               && |ImagesOf(old(images), productId)| <= MaxImagesPerProduct) ==>
        r == Ok(ProductImage(old(nextImageId), productId, imageUrl))
        && images == old(images) + [r.value]
    {
      if ProductIndex(products, productId).None? {
        return Err(ProductNotFound(productId));
      }
      var size := |ImagesOf(images, productId)|;
      if size > MaxImagesPerProduct {
        return Err(TooManyImages());
      }
      var m := ProductImage(nextImageId, productId, imageUrl);
      ghost var before := images;
      images := images + [m];
      nextImageId := nextImageId + 1;
      forall p: nat ensures ImagesOf(images, p) == ImagesOf(before, p) + (if p == productId then [m] else []) {
        ImagesOfAppend(before, m, p);
      }
      r := Ok(m);
    }
  }

  /** Recording an image through `createProductImage` keeps the cap. */
  lemma KeepsCap(images: seq<ProductImage>, m: ProductImage)
    requires CapKept(images) && |ImagesOf(images, m.productId)| <= MaxImagesPerProduct
    ensures CapKept(images + [m])
  {
    forall p: nat ensures |ImagesOf(images + [m], p)| <= MaxImagesPerProduct + 1 {
      ImagesOfAppend(images, m, p);
    }
  }

  /** The cap is one higher than its name says: a product at the maximum is
      admitted once more. */
  lemma {:induction false} CapAdmitsOneExtra(images: seq<ProductImage>, m: ProductImage)
    requires |ImagesOf(images, m.productId)| == MaxImagesPerProduct
    ensures |ImagesOf(images + [m], m.productId)| == MaxImagesPerProduct + 1
  {
    ImagesOfAppend(images, m, m.productId);
  }
}
