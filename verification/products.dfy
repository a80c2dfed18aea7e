/** The rules of the product service (src/services/product.service.ts):
    the checks of `createProduct`, the file name and storage path of an
    uploaded image, the fields `updateProductById` writes, the path of the
    image it replaces, and the guard of `softDeleteProductById`. The product
    table is a sequence of rows; storage uploads and deletions are left out,
    their inputs and outputs become parameters. A price arrives through
    `parseFloat`, so it is a `JsNumber`. */
module Products {
  import opened Common
  import opened Strings
  import opened Domain
  import Validation

  const NAME_REQUIRED: string := "Product name is required"
  const DESCRIPTION_REQUIRED: string := "Product description is required"
  const IMAGE_REQUIRED: string := "Product image is required"
  const PRICE_REQUIRED: string := "Valid price_per_kg is required"
  const BUCKET_MISSING: string := "Supabase Config is not set for Images Upload. Please contact admin"
  const PRODUCT_NOT_FOUND: string := "Product not found"
  const PRICE_NOT_POSITIVE: string := "price_per_kg must be greater than 0"
  const PRODUCT_NOT_FOUND_OR_INACTIVE: string := "Product not found or already inactive"
  const PRODUCT_IN_USE: string := "Product has an active orders, cannot be deleted"

  /** A `Product` row. */
  datatype Product = Product(id: int, name: string, description: string, pricePerKg: JsNumber, isActive: bool, imageId: Option<int>)

  /** An `Image` row. */
  datatype Image = Image(id: int, name: string, sourceUrl: string)

  // ---------------------------------------------------------------------
  // file names
  // ---------------------------------------------------------------------

  /** The characters `/[^a-zA-Z0-9.-]/` does not match. */
  predicate FileNameChar(c: char) {
    ('a' <= c <= 'z') || ('A' <= c <= 'Z') || ('0' <= c <= '9') || c == '.' || c == '-'
  }

  /** `originalname.replace(/[^a-zA-Z0-9.-]/g, "_")`: same length, allowed
      characters kept, every other character turned into `_`. */
  function Sanitize(name: string): (r: string)
    ensures |r| == |name|
    ensures forall i :: 0 <= i < |name| ==> (FileNameChar(name[i]) ==> r[i] == name[i]) && (!FileNameChar(name[i]) ==> r[i] == '_')
  {
    seq(|name|, i requires 0 <= i < |name| => if FileNameChar(name[i]) then name[i] else '_')
  }

  /** A sanitised name holds only allowed characters and `_`, so it has no
      `/`, and sanitising it again changes nothing. */
  lemma SanitizeIsClean(name: string)
    ensures forall i :: 0 <= i < |Sanitize(name)| ==> FileNameChar(Sanitize(name)[i]) || Sanitize(name)[i] == '_'
    ensures '/' !in Sanitize(name)
    ensures Sanitize(Sanitize(name)) == Sanitize(name)
  {
  }

  const PRODUCTS_FOLDER: string := "products"

  /** `products/${timestamp}-${sanitizedFileName}` */
  function StoragePath(timestamp: nat, originalName: string): (r: string)
    ensures StartsWith(r, PRODUCTS_FOLDER + "/")
    ensures EndsWith(r, Sanitize(originalName))
    ensures |r| == |PRODUCTS_FOLDER| + 1 + |NatToString(timestamp)| + 1 + |originalName|
  {
    var file := NatToString(timestamp) + "-" + Sanitize(originalName);
    ConcatEnds(PRODUCTS_FOLDER + "/", file);
    ConcatEnds(NatToString(timestamp) + "-", Sanitize(originalName));
    EndsWithExtend(PRODUCTS_FOLDER + "/", file, Sanitize(originalName));
    PRODUCTS_FOLDER + "/" + file
  }

  /** The timestamp is the text between the folder and the first `-`. */
  lemma {:induction false} StoragePathTimestamp(timestamp: nat, originalName: string)
    ensures var name := StoragePath(timestamp, originalName)[|PRODUCTS_FOLDER| + 1..];
      && IndexOf(name, '-') == Some(|NatToString(timestamp)|)
      && AllDigits(name[..|NatToString(timestamp)|])
      && ParseNat(name[..|NatToString(timestamp)|]) == timestamp
  {
    var digits := NatToString(timestamp);
    var name := StoragePath(timestamp, originalName)[|PRODUCTS_FOLDER| + 1..];
    assert name == digits + "-" + Sanitize(originalName);
    assert name[..|digits|] == digits;
    assert '-' !in digits by {
      forall i | 0 <= i < |digits| ensures digits[i] != '-' {
        assert IsDigit(digits[i]);
      }
    }
    IndexOfFirst(name, '-', |digits|);
    ParseNatToString(timestamp);
  }

  // ---------------------------------------------------------------------
  // createProduct
  // ---------------------------------------------------------------------

  /** The uploaded file: only its original name matters here. */
  datatype ImageFile = ImageFile(originalName: string)

  datatype NewProduct = NewProduct(name: Option<string>, description: Option<string>, price: JsNumber, image: Option<ImageFile>)

  /** What `createProduct` writes: the path the image is uploaded to, and
      the image and product rows. */
  datatype Created = Created(uploadPath: string, image: Image, product: Product)

  /** `publicUrl || storagePath` */
  function SourceUrl(publicUrl: Option<string>, storagePath: string): string {
    if publicUrl.Some? && |publicUrl.value| > 0 then publicUrl.value else storagePath
  }

  /** The checks of `createProduct` with its price test as a parameter. */
  function CreateWith(p: NewProduct, priceRejected: JsNumber -> bool, bucket: Option<string>, timestamp: nat,
                      publicUrl: Option<string>, storagePath: string, imageId: int, productId: int): Result<Created>
  {
    if Validation.MissingText(p.name) then BadRequest(NAME_REQUIRED)
    else if Validation.MissingText(p.description) then BadRequest(DESCRIPTION_REQUIRED)
    else if p.image.None? then BadRequest(IMAGE_REQUIRED)
    else if priceRejected(p.price) then BadRequest(PRICE_REQUIRED)
    else if bucket.None? || |bucket.value| == 0 then BadRequest(BUCKET_MISSING)
    else
      var image := Image(imageId, p.image.value.originalName, SourceUrl(publicUrl, storagePath));
      Success(Created(StoragePath(timestamp, p.image.value.originalName), image,
                      Product(productId, p.name.value, p.description.value, p.price, true, Some(imageId))))
  }

  /** `typeof price !== 'number' || price <= 0` on a number: true for zero,
      negatives and -Infinity, false for NaN. */
  predicate JsPriceRejected(price: JsNumber) { price.AtMostZero() }

  /** The test the error message asks for: a finite positive number. */
  predicate PriceInvalid(price: JsNumber) { !price.IsFiniteNumber() || price.r <= 0.0 }

  /** `createProduct` as written: name, description, image and price are
      checked in that order and the first failure is reported, then the
      storage bucket must be configured. The product is created active,
      pointing at the new image, and the image is uploaded under the
      products folder with its sanitised name. `bucket` is
      `SUPABASE_BUCKET`; `publicUrl` and `storagePath` are what the upload
      returns. */
  function CreateProduct(p: NewProduct, bucket: Option<string>, timestamp: nat,
                         publicUrl: Option<string>, storagePath: string, imageId: int, productId: int): (r: Result<Created>)
    ensures Validation.MissingText(p.name) ==> r == BadRequest(NAME_REQUIRED)
    ensures !Validation.MissingText(p.name) && Validation.MissingText(p.description) ==> r == BadRequest(DESCRIPTION_REQUIRED)
    ensures !Validation.MissingText(p.name) && !Validation.MissingText(p.description) && p.image.None? ==>
      r == BadRequest(IMAGE_REQUIRED)
    ensures r.Success? <==>
      && Validation.HasText(p.name) && Validation.HasText(p.description) && p.image.Some?
      && !p.price.AtMostZero() && bucket.Some? && |bucket.value| > 0
    ensures r.Success? ==>
      && r.value.product.isActive
      && r.value.product.imageId == Some(r.value.image.id)
      && r.value.product.pricePerKg == p.price
      && r.value.product.name == p.name.value
      && r.value.product.description == p.description.value
    ensures r.Success? ==>
      && r.value.image.name == p.image.value.originalName
      && r.value.image.sourceUrl == SourceUrl(publicUrl, storagePath)
    ensures r.Success? ==>
      && r.value.uploadPath == StoragePath(timestamp, p.image.value.originalName)
      && StartsWith(r.value.uploadPath, PRODUCTS_FOLDER + "/")
      && EndsWith(r.value.uploadPath, Sanitize(p.image.value.originalName))
  {
    Validation.MissingTextIffNoText(p.name);
    Validation.MissingTextIffNoText(p.description);
    CreateWith(p, JsPriceRejected, bucket, timestamp, publicUrl, storagePath, imageId, productId)
  }

  /** `createProduct` with a price that must be a finite positive number. */
  function CreateProductChecked(p: NewProduct, bucket: Option<string>, timestamp: nat,
                                publicUrl: Option<string>, storagePath: string, imageId: int, productId: int): (r: Result<Created>)
    ensures r.Success? ==> r.value.product.pricePerKg.IsFiniteNumber() && r.value.product.pricePerKg.r > 0.0
    ensures !Validation.MissingText(p.name) && !Validation.MissingText(p.description) && p.image.Some? && PriceInvalid(p.price) ==>
      r == BadRequest(PRICE_REQUIRED)
    ensures !PriceInvalid(p.price) ==>
      r == CreateProduct(p, bucket, timestamp, publicUrl, storagePath, imageId, productId)
  {
    CreateWith(p, PriceInvalid, bucket, timestamp, publicUrl, storagePath, imageId, productId)
  }

  /** A price of `parseFloat("abc")` is accepted as written and stored as
      `NaN`; the checked variant refuses it. */
  lemma NaNPriceIsAccepted(name: string, description: string, file: ImageFile, bucket: string, timestamp: nat,
                           publicUrl: Option<string>, storagePath: string, imageId: int, productId: int)
    requires |Trim(name)| > 0 && |Trim(description)| > 0 && |bucket| > 0
    ensures var p := NewProduct(Some(name), Some(description), NaN, Some(file));
      var r := CreateProduct(p, Some(bucket), timestamp, publicUrl, storagePath, imageId, productId);
      r.Success? && r.value.product.pricePerKg == NaN
    ensures var p := NewProduct(Some(name), Some(description), NaN, Some(file));
      CreateProductChecked(p, Some(bucket), timestamp, publicUrl, storagePath, imageId, productId) == BadRequest(PRICE_REQUIRED)
  {
    var p := NewProduct(Some(name), Some(description), NaN, Some(file));
    assert !Validation.MissingText(p.name) && !Validation.MissingText(p.description);
    assert !JsPriceRejected(p.price) && PriceInvalid(p.price);
  }

  // ---------------------------------------------------------------------
  // updateProductById
  // ---------------------------------------------------------------------

  /** `findFirst({ where: { id, is_active: true } })`: the position of the
      first active product with that id. */
  function FindActiveProduct(products: seq<Product>, id: int): Option<nat> {
    FindFirst(products, (p: Product) => p.id == id && p.isActive)
  }

  ghost predicate HasActiveProduct(products: seq<Product>, id: int) {
    exists j :: 0 <= j < |products| && products[j].id == id && products[j].isActive
  }

  /** The payload of `updateProductById`; `None` is an absent field. */
  datatype ProductUpdate = ProductUpdate(name: Option<string>, description: Option<string>, price: Option<JsNumber>, isActive: Option<bool>)

  predicate Truthy(s: Option<string>) { s.Some? && |s.value| > 0 }

  /** The spread of `updateProductById`: a truthy name, description or price
      and a defined `is_active` replace the stored values. */
  function ApplyProductUpdate(p: Product, u: ProductUpdate): Product {
    p.(name := if Truthy(u.name) then u.name.value else p.name,
       description := if Truthy(u.description) then u.description.value else p.description,
       pricePerKg := if u.price.Some? && u.price.value.Truthy() then u.price.value else p.pricePerKg,
       isActive := u.isActive.GetOr(p.isActive))
  }

  /** `fk_id_image` is truthy: the product points at an image row. */
  predicate HasImage(p: Product) { p.imageId.Some? && p.imageId.value != 0 }

  /** With a file, a product without an image is linked to the new image
      row; otherwise the product is left as it is. */
  function LinkImage(p: Product, file: Option<ImageFile>, newImageId: int): Product {
    if file.Some? && !HasImage(p) then p.(imageId := Some(newImageId)) else p
  }

  /** Position `j` holds the first active product with id `id`, the row
      `findFirst` returns. */
  predicate FirstActiveAt(products: seq<Product>, id: int, j: int) {
    && 0 <= j < |products| && products[j].id == id && products[j].isActive
    && forall i :: 0 <= i < j ==> !(products[i].id == id && products[i].isActive)
  }

  /** What `updateProductById` writes: the product table, the image row
      written when a file came with the payload, and the path the file is
      uploaded to. */
  datatype Updated = Updated(products: seq<Product>, image: Option<Image>, uploadPath: Option<string>)

  /** `updateProductById`: the product must be active and a given price must
      not be at most 0. With a file, the file is uploaded under the products
      folder and the product's image row is rewritten with its name and URL,
      or, when the product has no image, a new image row is created and
      linked. Then the product fields are written: a truthy name,
      description or price, or a defined `is_active`, replaces the stored
      value. `publicUrl` and `storagePath` are what the upload returns and
      `newImageId` is the id the database gives a created image. */
  function UpdateProductById(products: seq<Product>, id: int, u: ProductUpdate, file: Option<ImageFile>, timestamp: nat,
                             publicUrl: Option<string>, storagePath: string, newImageId: int): (r: Result<Updated>)
    ensures r.Success? <==> HasActiveProduct(products, id) && !(u.price.Some? && u.price.value.AtMostZero())
    ensures !HasActiveProduct(products, id) ==> r == BadRequest(PRODUCT_NOT_FOUND)
    ensures HasActiveProduct(products, id) && u.price.Some? && u.price.value.AtMostZero() ==> r == BadRequest(PRICE_NOT_POSITIVE)
    ensures r.Success? ==>
      && |r.value.products| == |products|
      && (forall j :: 0 <= j < |products| && !FirstActiveAt(products, id, j) ==> r.value.products[j] == products[j])
      && (forall j :: FirstActiveAt(products, id, j) ==>
            var before, after := products[j], r.value.products[j];
            && after.id == before.id
            && after.name == (if Truthy(u.name) then u.name.value else before.name)
            && after.description == (if Truthy(u.description) then u.description.value else before.description)
            && after.pricePerKg == (if u.price.Some? && u.price.value.Truthy() then u.price.value else before.pricePerKg)
            && after.isActive == (if u.isActive.Some? then u.isActive.value else before.isActive)
            && after.imageId == (if file.Some? && !HasImage(before) then Some(newImageId) else before.imageId)
            && (file.Some? ==>
                  r.value.image == Some(Image(after.imageId.value, file.value.originalName, SourceUrl(publicUrl, storagePath)))))
    ensures r.Success? ==> (r.value.image.Some? <==> file.Some?)
    ensures r.Success? && file.Some? ==> r.value.uploadPath == Some(StoragePath(timestamp, file.value.originalName))
    ensures r.Success? && file.None? ==> r.value.uploadPath.None?
  {
    var found := FindActiveProduct(products, id);
    if found.None? then BadRequest(PRODUCT_NOT_FOUND)
    else if u.price.Some? && u.price.value.AtMostZero() then BadRequest(PRICE_NOT_POSITIVE)
    else
      var i := found.value;
      var linked := LinkImage(products[i], file, newImageId);
      var written := products[i := ApplyProductUpdate(linked, u)];
      match file
      case None => Success(Updated(written, None, None))
      case Some(f) =>
        Success(Updated(written, Some(Image(linked.imageId.value, f.originalName, SourceUrl(publicUrl, storagePath))),
                        Some(StoragePath(timestamp, f.originalName))))
  }

  /** A `NaN` price passes the check but is falsy, so the stored price is
      kept and the update still succeeds. */
  lemma NaNPriceIsIgnoredOnUpdate(products: seq<Product>, id: int, u: ProductUpdate, file: Option<ImageFile>, timestamp: nat,
                                  publicUrl: Option<string>, storagePath: string, newImageId: int)
    requires HasActiveProduct(products, id)
    requires u.price == Some(NaN)
    ensures UpdateProductById(products, id, u, file, timestamp, publicUrl, storagePath, newImageId).Success?
    ensures forall j :: 0 <= j < |products| ==>
      UpdateProductById(products, id, u, file, timestamp, publicUrl, storagePath, newImageId).value.products[j].pricePerKg
        == products[j].pricePerKg
  {
  }

  /** Repeating an update that leaves the product active, with the same
      payload and file, changes nothing further: the same row is found
      again, its fields already hold the payload's values, and a product
      that was given an image keeps it. */
  lemma UpdateIsIdempotent(products: seq<Product>, id: int, u: ProductUpdate, file: Option<ImageFile>, timestamp: nat,
                           publicUrl: Option<string>, storagePath: string, newImageId: int)
    requires UpdateProductById(products, id, u, file, timestamp, publicUrl, storagePath, newImageId).Success?
    requires u.isActive != Some(false)
    ensures var once := UpdateProductById(products, id, u, file, timestamp, publicUrl, storagePath, newImageId).value;
      var twice := UpdateProductById(once.products, id, u, file, timestamp, publicUrl, storagePath, newImageId);
      twice.Success? && twice.value == once
  {
    var once := UpdateProductById(products, id, u, file, timestamp, publicUrl, storagePath, newImageId).value;
    var i := FindActiveProduct(products, id).value;
    var after := once.products[i];
    assert once.products == products[i := ApplyProductUpdate(LinkImage(products[i], file, newImageId), u)];
    assert FirstActiveAt(once.products, id, i) by {
      assert FirstActiveAt(products, id, i);
    }
    assert FindActiveProduct(once.products, id) == Some(i);
    RowUpdateIsIdempotent(products[i], u, file, newImageId);
    assert once.products[i := after] == once.products;
  }

  /** Linking and writing the payload a second time leaves the row as the
      first time left it. */
  lemma RowUpdateIsIdempotent(p: Product, u: ProductUpdate, file: Option<ImageFile>, newImageId: int)
    ensures var after := ApplyProductUpdate(LinkImage(p, file, newImageId), u);
      && ApplyProductUpdate(LinkImage(after, file, newImageId), u) == after
      && (file.Some? ==> LinkImage(after, file, newImageId).imageId == after.imageId)
  {
  }

  // ---------------------------------------------------------------------
  // replacing an image
  // ---------------------------------------------------------------------

  /** `parts.slice(-n)` */
  function LastPieces(parts: seq<string>, n: nat): (r: seq<string>)
    ensures |r| == if |parts| <= n then |parts| else n
    ensures r == parts[|parts| - |r|..]
  {
    if |parts| <= n then parts else parts[|parts| - n..]
  }

  /** The path of the old image to delete: for a URL, the last two segments
      of its path; anything else is already a storage path. `pathname` is
      what `new URL(sourceUrl).pathname` gives, URL parsing being left out. */
  function OldImagePath(sourceUrl: string, pathname: string): (r: string)
    ensures !Contains(sourceUrl, "http") ==> r == sourceUrl
  {
    if Contains(sourceUrl, "http") then Join(LastPieces(Split(pathname, '/'), 2), '/') else sourceUrl
  }

  /** Splitting at a separator splits the two sides independently. */
  lemma {:induction false} SplitConcat(a: string, b: string, sep: char)
    ensures Split(a + [sep] + b, sep) == Split(a, sep) + Split(b, sep)
    decreases |a|
  {
    match IndexOf(a, sep)
    case None =>
      SplitConcatNoSeparator(a, b, sep);
    case Some(i) =>
      SplitConcat(a[i + 1..], b, sep);
      SplitConcatStep(a, b, sep, i);
  }

  lemma SplitConcatNoSeparator(a: string, b: string, sep: char)
    requires sep !in a
    ensures Split(a + [sep] + b, sep) == Split(a, sep) + Split(b, sep)
  {
    var s := a + [sep] + b;
    assert s[..|a|] == a;
    assert s[|a| + 1..] == b;
    SplitAtFirst(s, sep, |a|);
    assert Split(a, sep) == [a];
  }

  /** The inductive step: `a` has its first separator at `i`, and the claim
      holds for what follows it. */
  lemma SplitConcatStep(a: string, b: string, sep: char, i: nat)
    requires IndexOf(a, sep) == Some(i)
    requires Split(a[i + 1..] + [sep] + b, sep) == Split(a[i + 1..], sep) + Split(b, sep)
    ensures Split(a + [sep] + b, sep) == Split(a, sep) + Split(b, sep)
  {
    var rest := a[i + 1..];
    SplitAfterFirst(a, b, sep, i);
    SplitUnfold(a, sep, i);
    AppendAssoc([a[..i]], Split(rest, sep), Split(b, sep));
  }

  lemma SplitUnfold(s: string, sep: char, i: nat)
    requires IndexOf(s, sep) == Some(i)
    ensures Split(s, sep) == [s[..i]] + Split(s[i + 1..], sep)
  {
  }

  /** Where `a` holds a separator, the first piece of `a + [sep] + b` is the
      first piece of `a`. */
  lemma SplitAfterFirst(a: string, b: string, sep: char, i: nat)
    requires IndexOf(a, sep) == Some(i)
    ensures Split(a + [sep] + b, sep) == [a[..i]] + Split(a[i + 1..] + [sep] + b, sep)
  {
    var s := a + [sep] + b;
    assert s[..i] == a[..i];
    assert s[i + 1..] == a[i + 1..] + [sep] + b by {
      DropConcat(a + [sep], b, i + 1);
      DropConcat(a, [sep], i + 1);
    }
    SplitAtFirst(s, sep, i);
  }

  lemma DropConcat(x: string, y: string, n: nat)
    requires n <= |x|
    ensures (x + y)[n..] == x[n..] + y
  {
  }

  /** Splitting at the first separator, found at `i`. */
  lemma SplitAtFirst(s: string, sep: char, i: nat)
    requires i < |s| && s[i] == sep && sep !in s[..i]
    ensures Split(s, sep) == [s[..i]] + Split(s[i + 1..], sep)
  {
    IndexOfFirst(s, sep, i);
  }

  lemma SplitWithoutSeparator(s: string, sep: char)
    requires sep !in s
    ensures Split(s, sep) == [s]
  {
  }

  /** An image uploaded under `products/` whose public URL path ends with its
      storage path is deleted under exactly that storage path when it is
      replaced. */
  lemma OldImagePathOfUploadedImage(timestamp: nat, originalName: string, sourceUrl: string, pathPrefix: string)
    requires Contains(sourceUrl, "http")
    ensures OldImagePath(sourceUrl, pathPrefix + "/" + StoragePath(timestamp, originalName)) == StoragePath(timestamp, originalName)
  {
    var file := NatToString(timestamp) + "-" + Sanitize(originalName);
    FileHasNoSlash(timestamp, originalName);
    var path := StoragePath(timestamp, originalName);
    assert path == PRODUCTS_FOLDER + ['/'] + file;
    var parts := SplitStoragePath(pathPrefix, file);
    assert pathPrefix + "/" + path == pathPrefix + ['/'] + (PRODUCTS_FOLDER + ['/'] + file);
    assert LastPieces(parts, 2) == [PRODUCTS_FOLDER, file];
    assert Join([PRODUCTS_FOLDER, file], '/') == PRODUCTS_FOLDER + ['/'] + file;
  }

  lemma FileHasNoSlash(timestamp: nat, originalName: string)
    ensures '/' !in NatToString(timestamp) + "-" + Sanitize(originalName)
  {
    SanitizeIsClean(originalName);
    var d := NatToString(timestamp);
    forall i | 0 <= i < |d| ensures d[i] != '/' {
      assert IsDigit(d[i]);
    }
  }

  /** The pieces of a URL path that ends in `/products/<file>`. */
  lemma SplitStoragePath(pathPrefix: string, file: string) returns (parts: seq<string>)
    requires '/' !in file
    ensures parts == Split(pathPrefix + ['/'] + (PRODUCTS_FOLDER + ['/'] + file), '/')
    ensures parts == Split(pathPrefix, '/') + [PRODUCTS_FOLDER, file]
  {
    var tail := PRODUCTS_FOLDER + ['/'] + file;
    assert '/' !in PRODUCTS_FOLDER by {
      forall i | 0 <= i < |PRODUCTS_FOLDER| ensures PRODUCTS_FOLDER[i] != '/' {
        assert 'a' <= PRODUCTS_FOLDER[i] <= 'z';
      }
    }
    SplitTwoPieces(PRODUCTS_FOLDER, file, '/');
    SplitConcat(pathPrefix, tail, '/');
    parts := Split(pathPrefix + ['/'] + tail, '/');
  }

  lemma SplitTwoPieces(dir: string, file: string, sep: char)
    requires sep !in dir && sep !in file
    ensures Split(dir + [sep] + file, sep) == [dir, file]
  {
    SplitConcat(dir, file, sep);
    SplitWithoutSeparator(dir, sep);
    SplitWithoutSeparator(file, sep);
  }

  // ---------------------------------------------------------------------
  // softDeleteProductById
  // ---------------------------------------------------------------------

  /** `softDeleteProductById`: the product must be active and no allocation
      row may name it; the row is then kept but made inactive, and every
      other row is unchanged. */
  function SoftDeleteProductById(products: seq<Product>, allocations: seq<Allocation>, id: int): (r: Result<seq<Product>>)
    ensures !HasActiveProduct(products, id) ==> r == BadRequest(PRODUCT_NOT_FOUND_OR_INACTIVE)
    ensures r.Success? <==> HasActiveProduct(products, id) && forall a :: a in allocations ==> a.productId != id
    ensures HasActiveProduct(products, id) && (exists a :: a in allocations && a.productId == id) ==> r == BadRequest(PRODUCT_IN_USE)
    ensures r.Success? ==>
      && |r.value| == |products|
      && (forall j :: 0 <= j < |products| && r.value[j] != products[j] ==> r.value[j] == products[j].(isActive := false))
      && (forall j :: 0 <= j < |products| && !(products[j].id == id && products[j].isActive) ==> r.value[j] == products[j])
  {
    var found := FindActiveProduct(products, id);
    if found.None? then BadRequest(PRODUCT_NOT_FOUND_OR_INACTIVE)
    else if exists a :: a in allocations && a.productId == id then BadRequest(PRODUCT_IN_USE)
    else
      Success(products[found.value := products[found.value].(isActive := false)])
  }

  /** With ids unique, a soft-deleted product is no longer active. */
  lemma SoftDeletedProductIsInactive(products: seq<Product>, allocations: seq<Allocation>, id: int)
    requires forall i, j :: 0 <= i < j < |products| ==> products[i].id != products[j].id
    requires SoftDeleteProductById(products, allocations, id).Success?
    ensures !HasActiveProduct(SoftDeleteProductById(products, allocations, id).value, id)
  {
    var k := FindActiveProduct(products, id).value;
    var r := SoftDeleteProductById(products, allocations, id).value;
    assert r == products[k := products[k].(isActive := false)];
    forall j | 0 <= j < |r| && r[j].id == id ensures !r[j].isActive {
    }
  }
}
