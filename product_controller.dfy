/** `ProductController`: the validation loop of the image upload and the
    parsing of a comma-separated id list. */
module ProductController {
  import opened Wrappers
  import opened Text
  import opened Http
  import opened Products

  /** 10 MiB, the largest accepted upload. */
  const MaxFileSize: nat := 10 * 1024 * 1024

  const TooManyFiles: string := "You can only upload maximum 5 images"
  const FileTooLarge: string := "File is too large! Maximum size is 10MB"
  const NotAnImage: string := "File must be an image"

  /** Why a request stops before its last file. */
  datatype Reason = TooLarge | NotImage | BadFormat | CapReached

  /** The status `uploadImages` answers with for each reason. */
  function StatusOf(r: Reason): Status {
    match r
    case TooLarge => PaymentRequired
    case NotImage => UnsupportedMediaType
    case BadFormat => BadRequest
    case CapReached => BadRequest
  }

  /** The message `uploadImages` answers with: its own for the size and type
      checks, the message of the exception `storeFile` or
      `createProductImage` throws otherwise. */
  function MessageOf(r: Reason): string {
    match r
    case TooLarge => FileTooLarge
    case NotImage => NotAnImage
    case BadFormat => InvalidImageFormat
    case CapReached => TooManyImages()
  }

  /** What the loop's own checks make of one file. */
  datatype Verdict = Skip | Reject(reason: Reason) | Store

  /** The per-file checks, in the loop's order: empty files are skipped,
      then the size cap, then the content type. */
  function Classify(f: UploadFile): (v: Verdict)
    ensures v == Skip <==> f.size == 0
    ensures v == Store <==> 0 < f.size <= MaxFileSize && IsImageFile(f.contentType)
    ensures v.Reject? ==> (v.reason == TooLarge <==> f.size > MaxFileSize)
    ensures v.Reject? ==> v.reason == TooLarge || v.reason == NotImage
  {
    if f.size == 0 then Skip
    else if f.size > MaxFileSize then Reject(TooLarge)
    else if !IsImageFile(f.contentType) then Reject(NotImage)
    else Store
  }

  /** What became of one file: passed over, the reason the request stopped
      there, or the name it was stored under. */
  datatype Outcome = Passed | Halted(reason: Reason) | Named(name: string)

  /** One file's fate: the loop's checks in order, then `storeFile` under the
      UUID `uuid`. */
  function OutcomeOf(f: UploadFile, uuid: string, cleanPath: string -> string): (o: Outcome)
    ensures o == Passed <==> f.size == 0
    ensures o.Named? <==>
      0 < f.size <= MaxFileSize && IsImageFile(f.contentType) && f.originalFilename.Some?
    ensures o.Named? ==> StartsWith(o.name, uuid + "_")
    ensures o.Named? ==> o.name[|uuid| + 1..] == cleanPath(f.originalFilename.value)
    ensures o.Halted? ==> (o.reason == TooLarge <==> f.size > MaxFileSize)
    ensures o.Halted? ==> (o.reason == BadFormat <==> Classify(f) == Store)
    ensures o.Halted? ==> o.reason != CapReached
  {
    match Classify(f)
    case Skip => Passed
    case Reject(reason) => Halted(reason)
    case Store =>
      match StoreFile(f, uuid, cleanPath)
      case Err(_) => Halted(BadFormat)
      case Ok(name) => Named(name)
  }

  /** The outcomes of a whole request, file `i` under the UUID `uuidOf(i)`. */
  function OutcomesOf(list: seq<UploadFile>, uuidOf: nat -> string,
                      cleanPath: string -> string): (r: seq<Outcome>)
    ensures |r| == |list|
  {
    if list == [] then []
    else OutcomesOf(list[..|list| - 1], uuidOf, cleanPath)
         + [OutcomeOf(list[|list| - 1], uuidOf(|list| - 1), cleanPath)]
  }

  /** Each file's outcome depends on that file and its index alone. */
  lemma {:induction false} OutcomeAt(list: seq<UploadFile>, uuidOf: nat -> string,
                                     cleanPath: string -> string, i: nat)
    requires i < |list|
    ensures OutcomesOf(list, uuidOf, cleanPath)[i] == OutcomeOf(list[i], uuidOf(i), cleanPath)
    decreases |list|
  {
    if i < |list| - 1 {
      OutcomeAt(list[..|list| - 1], uuidOf, cleanPath, i);
      assert list[..|list| - 1][i] == list[i];
    }
  }

  /** The outcome of a request: the names recorded, in file order, and the
      failure that ended it, if any. */
  datatype Upload = Upload(names: seq<string>, failure: Option<Reason>)

  /** The reference definition of `uploadImages`' loop from outcome `k` on,
      when the product already holds `held` images: pass over, stop, or
      record (under the service's cap) and go on. */
  function Plan(outs: seq<Outcome>, k: nat, held: nat): Upload
    requires k <= |outs|
    decreases |outs| - k
  {
    if k == |outs| then Upload([], None)
    else match outs[k]
      case Passed => Plan(outs, k + 1, held)
      case Halted(reason) => Upload([], Some(reason))
      case Named(name) =>
        if held > MaxImagesPerProduct then Upload([], Some(CapReached))
        else
          var rest := Plan(outs, k + 1, held + 1);
          Upload([name] + rest.names, rest.failure)
  }

  /** `Plan` as the loop computes it, with the names recorded so far in
      `acc`. */
  function Drive(outs: seq<Outcome>, k: nat, held: nat, acc: seq<string>): Upload
    requires k <= |outs|
    decreases |outs| - k
  {
    if k == |outs| then Upload(acc, None)
    else match outs[k]
      case Passed => Drive(outs, k + 1, held, acc)
      case Halted(reason) => Upload(acc, Some(reason))
      case Named(name) =>
        if held > MaxImagesPerProduct then Upload(acc, Some(CapReached))
        else Drive(outs, k + 1, held + 1, acc + [name])
  }

  /** The loop's accumulating form agrees with the reference definition. */
  lemma {:induction false} DriveIsPlan(outs: seq<Outcome>, k: nat, held: nat, acc: seq<string>)
    requires k <= |outs|
    ensures Drive(outs, k, held, acc)
            == Upload(acc + Plan(outs, k, held).names, Plan(outs, k, held).failure)
    decreases |outs| - k
  {
    if k == |outs| {
      assert acc + [] == acc;
    } else {
      match outs[k]
      case Passed =>
        DriveIsPlan(outs, k + 1, held, acc);
      case Halted(_) =>
        assert acc + [] == acc;
      case Named(name) =>
        if held > MaxImagesPerProduct {
          assert acc + [] == acc;
        } else {
          DriveIsPlan(outs, k + 1, held + 1, acc + [name]);
          AppendAssoc(acc, [name], Plan(outs, k + 1, held + 1).names);
        }
    }
  }

  /** No outcome from `k` up to `j` stops the request. */
  predicate NoHaltBetween(outs: seq<Outcome>, k: int, j: int)
    requires 0 <= k <= j <= |outs|
  {
    forall i :: k <= i < j ==> !outs[i].Halted?
  }

  /** The names of the stored files from `k` up to `j`, in order. */
  function NamedIn(outs: seq<Outcome>, k: nat, j: nat): (r: seq<string>)
    requires k <= j <= |outs|
    ensures |r| <= j - k
    decreases j - k
  {
    if k == j then []
    else (if outs[k].Named? then [outs[k].name] else []) + NamedIn(outs, k + 1, j)
  }

  /** When outcome `j` is the first to stop the request and the cap holds
      up to it, the request fails with `j`'s reason and every file stored
      before `j` keeps its image: there is no rollback. */
  lemma {:induction false} PlanStopsAtHalt(outs: seq<Outcome>, k: nat, j: nat, held: nat)
    requires k <= j < |outs| && outs[j].Halted?
    requires NoHaltBetween(outs, k, j)
    requires held + |NamedIn(outs, k, j)| <= MaxImagesPerProduct + 1
    ensures Plan(outs, k, held) == Upload(NamedIn(outs, k, j), Some(outs[j].reason))
    decreases j - k
  {
    if k < j {
      if outs[k].Named? {
        PlanStopsAtHalt(outs, k + 1, j, held + 1);
      } else {
        PlanStopsAtHalt(outs, k + 1, j, held);
      }
    }
  }

  /** A request succeeds exactly when no outcome stops it and the cap never
      trips: the cap is only consulted when a file is stored, so a request
      that stores nothing never trips it. A successful request records
      every stored file, in order. */
  lemma {:induction false} PlanSucceeds(outs: seq<Outcome>, k: nat, held: nat)
    requires k <= |outs|
    ensures Plan(outs, k, held).failure.None? <==>
      NoHaltBetween(outs, k, |outs|)
      && (NamedIn(outs, k, |outs|) == [] || held + |NamedIn(outs, k, |outs|)| <= MaxImagesPerProduct + 1)
    ensures Plan(outs, k, held).failure.None? ==> Plan(outs, k, held).names == NamedIn(outs, k, |outs|)
    decreases |outs| - k
  {
    if k < |outs| {
      assert NoHaltBetween(outs, k, |outs|) <==>
        !outs[k].Halted? && NoHaltBetween(outs, k + 1, |outs|);
      match outs[k]
      case Passed =>
        assert NamedIn(outs, k, |outs|) == NamedIn(outs, k + 1, |outs|);
        PlanSucceeds(outs, k + 1, held);
      case Halted(_) =>
      case Named(name) =>
        assert NamedIn(outs, k, |outs|) == [name] + NamedIn(outs, k + 1, |outs|);
        PlanSucceeds(outs, k + 1, held + 1);
    }
  }

  /** Whatever happens, the names recorded are the first of those the files
      would store under: order is kept and nothing is invented. */
  lemma {:induction false} PlanRecordsPrefix(outs: seq<Outcome>, k: nat, held: nat)
    requires k <= |outs|
    ensures Plan(outs, k, held).names <= NamedIn(outs, k, |outs|)
    decreases |outs| - k
  {
    if k < |outs| {
      if outs[k].Named? {
        PlanRecordsPrefix(outs, k + 1, held + 1);
      } else {
        PlanRecordsPrefix(outs, k + 1, held);
      }
    }
  }

  /** Files of size zero are passed over: a request made only of them
      succeeds and records nothing. */
  lemma {:induction false} EmptyFilesRecordNothing(list: seq<UploadFile>, k: nat, held: nat,
                                                   uuidOf: nat -> string, cleanPath: string -> string)
    requires k <= |list|
    requires forall i :: k <= i < |list| ==> list[i].size == 0
    ensures Plan(OutcomesOf(list, uuidOf, cleanPath), k, held) == Upload([], None)
    decreases |list| - k
  {
    if k < |list| {
      OutcomeAt(list, uuidOf, cleanPath, k);
      EmptyFilesRecordNothing(list, k + 1, held, uuidOf, cleanPath);
    }
  }

  /** A product already at the cap still gains one image from a request with
      one accepted, named file. */
  lemma CapAdmitsOneMore(file: UploadFile, uuidOf: nat -> string, cleanPath: string -> string)
    requires Classify(file) == Store && file.originalFilename.Some?
    ensures Plan(OutcomesOf([file], uuidOf, cleanPath), 0, MaxImagesPerProduct)
            == Upload([StoreFile(file, uuidOf(0), cleanPath).value], None)
  {
    OutcomeAt([file], uuidOf, cleanPath, 0);
  }

  /** The bookkeeping of one turn of the upload loop: the images recorded
      so far grow by those of this turn, all for the same product. */
  lemma Advance(before: seq<ProductImage>, added: seq<ProductImage>, recorded: seq<ProductImage>,
                productId: nat)
    requires |recorded| <= 1
    requires forall m :: 0 <= m < |added| ==> added[m].productId == productId
    requires forall m :: 0 <= m < |recorded| ==> recorded[m].productId == productId
    ensures forall m :: 0 <= m < |added + recorded| ==> (added + recorded)[m].productId == productId
    ensures (before + added) + recorded == before + (added + recorded)
    ensures Urls(added + recorded) == Urls(added) + Urls(recorded)
  {
    UrlsAppendAll(added, recorded);
    AppendAssoc(before, added, recorded);
  }

  lemma UrlsAppendAll(images: seq<ProductImage>, more: seq<ProductImage>)
    requires |more| <= 1
    ensures Urls(images + more) == Urls(images) + Urls(more)
  {
    if more != [] {
      UrlsAppend(images, more[0]);
      assert more == [more[0]];
    } else {
      assert images + more == images;
    }
  }

  lemma {:induction false} UrlsAppend(images: seq<ProductImage>, m: ProductImage)
    ensures Urls(images + [m]) == Urls(images) + [m.imageUrl]
  {
    if images == [] {
      assert images + [m] == [m];
    } else {
      assert (images + [m])[1..] == images[1..] + [m];
      UrlsAppend(images[1..], m);
    }
  }

  function Urls(images: seq<ProductImage>): (r: seq<string>)
    ensures |r| == |images|
  {
    if images == [] then [] else [images[0].imageUrl] + Urls(images[1..])
  }

  /** `Long.parseLong` on every piece; the first piece that does not parse
      names the failure as the JDK does. */
  function ParseAll(pieces: seq<string>): (r: Result<seq<int>>)
    ensures r.Ok? <==> forall i :: 0 <= i < |pieces| ==> ParseLong(pieces[i]).Some?
    ensures r.Ok? ==> |r.value| == |pieces|
                      && forall i :: 0 <= i < |pieces| ==> Some(r.value[i]) == ParseLong(pieces[i])
  {
    if pieces == [] then Ok([])
    else match ParseLong(pieces[0])
      case None => Err("For input string: \"" + pieces[0] + "\"")
      case Some(v) =>
        match ParseAll(pieces[1..])
        case Err(e) => Err(e)
        case Ok(vs) => Ok([v] + vs)
  }

  /** The decimal ids joined with commas, as a client sends them. */
  function IdList(ids: seq<nat>): string
    requires |ids| >= 1
  {
    Join(DecimalsOf(ids), ',')
  }

  function DecimalsOf(ids: seq<nat>): (r: seq<string>)
    ensures |r| == |ids| && forall i :: 0 <= i < |ids| ==> r[i] == Decimal(ids[i])
  {
    if ids == [] then [] else [Decimal(ids[0])] + DecimalsOf(ids[1..])
  }

  lemma {:induction false} ParseAllDecimals(ids: seq<nat>)
    requires forall i :: 0 <= i < |ids| ==> ids[i] <= MaxLong
    ensures ParseAll(DecimalsOf(ids)) == Ok(ids)
  {
    if ids != [] {
      ParseDecimal(ids[0]);
      ParseAllDecimals(ids[1..]);
      assert DecimalsOf(ids)[1..] == DecimalsOf(ids[1..]);
      assert [ids[0]] + ids[1..] == ids;
    }
  }

  /** Every non-empty list of ids a long can hold, written out as the client
      writes it, is read back exactly. */
  lemma IdListRoundTrip(ids: seq<nat>)
    requires |ids| >= 1
    requires forall i :: 0 <= i < |ids| ==> ids[i] <= MaxLong
    ensures ParseAll(JavaSplit(IdList(ids), ',')) == Ok(ids)
  {
    var pieces := DecimalsOf(ids);
    forall i | 0 <= i < |pieces| ensures ',' !in pieces[i] && pieces[i] != [] {
      assert AllDigits(pieces[i]);
    }
    JavaSplitJoin(pieces, ',');
    ParseAllDecimals(ids);
  }

  /** An empty piece (two commas in a row) is not a number. */
  lemma EmptyPieceRejected(a: string, b: string)
    ensures ParseAll([a, "", b]).Err?
  {
  }

  class ProductController {
    const productService: ProductService

    constructor (productService: ProductService)
      ensures this.productService == productService
    {
      this.productService := productService;
    }

    /** `getProductsByIds`: split on ',', parse every piece, then look the
        ids up. */
    function GetProductsByIds(ids: string): (reply: Reply<seq<Product>>)
      reads this, productService
      ensures reply.Success? <==> ParseAll(JavaSplit(ids, ',')).Ok?
      ensures reply.Success? ==>
        forall p :: p in reply.value <==>
          p in productService.products && p.id in ParseAll(JavaSplit(ids, ',')).value
      ensures reply.Failure? ==> reply.status == BadRequest
    {
      match ParseAll(JavaSplit(ids, ','))
      case Err(e) => Failure(BadRequest, e)
      case Ok(productIds) => Success(productService.FindProductsByIds(productIds), "")
    }

    /** `uploadImages`.  The product must exist; a null list counts as empty;
        more than `MaxImagesPerProduct` files are refused before any is
        looked at; then `StoreEach` runs the loop.  The UUID for file `i` is
        `uuidOf(i)`. */
    method UploadImages(productId: nat, files: Option<seq<UploadFile>>,
                        uuidOf: nat -> string, cleanPath: string -> string)
      returns (reply: Reply<seq<ProductImage>>)
      requires productService.Valid()
      modifies productService
      ensures productService.Valid() && productService.products == old(productService.products)
      ensures |productService.images| >= |old(productService.images)|
      ensures productService.images[..|old(productService.images)|] == old(productService.images)
      ensures forall k :: |old(productService.images)| <= k < |productService.images| ==>
        productService.images[k].productId == productId
      ensures old(productService.GetProductById(productId)).Err? ==>
        reply == Failure(BadRequest, ProductNotFound(productId))
        && productService.images == old(productService.images)
      ensures (old(productService.GetProductById(productId)).Ok?
               && |files.GetOr([])| > MaxImagesPerProduct) ==>
        reply == Failure(BadRequest, TooManyFiles) && productService.images == old(productService.images)
      ensures (old(productService.GetProductById(productId)).Ok?
               && |files.GetOr([])| <= MaxImagesPerProduct) ==>
        var plan := Plan(OutcomesOf(files.GetOr([]), uuidOf, cleanPath), 0,
                         |ImagesOf(old(productService.images), productId)|);
        var recorded := productService.images[|old(productService.images)|..];
        Urls(recorded) == plan.names
        && (plan.failure.None? ==> reply == Success(recorded, ""))
        && (plan.failure.Some? ==>
              reply == Failure(StatusOf(plan.failure.value), MessageOf(plan.failure.value)))
    {
      var found := productService.GetProductById(productId);
      if found.Err? {
        return Failure(BadRequest, found.error);
      }
      var list := files.GetOr([]);
      if |list| > MaxImagesPerProduct {
        return Failure(BadRequest, TooManyFiles);
      }
      ghost var before := productService.images;
      var failure, added := StoreEach(productId, list, uuidOf, cleanPath);
      assert productService.images[|before|..] == added;
      match failure {
        case None => reply := Success(added, "");
        case Some(reason) => reply := Failure(StatusOf(reason), MessageOf(reason));
      }
    }

    /** The loop of `uploadImages`: each file in turn is passed over, stops
        the request, or is stored and recorded at once, exactly as `Plan`
        says; `added` is the list of images recorded. */
    method StoreEach(productId: nat, list: seq<UploadFile>,
                     uuidOf: nat -> string, cleanPath: string -> string)
      returns (failure: Option<Reason>, added: seq<ProductImage>)
      requires productService.Valid() && ProductIndex(productService.products, productId).Some?
      modifies productService
      ensures productService.Valid() && productService.products == old(productService.products)
      ensures productService.images == old(productService.images) + added
      ensures forall m :: 0 <= m < |added| ==> added[m].productId == productId
      ensures var plan := Plan(OutcomesOf(list, uuidOf, cleanPath), 0,
                               |ImagesOf(old(productService.images), productId)|);
        Urls(added) == plan.names && failure == plan.failure
    {
      ghost var before := productService.images;
      ghost var held := |ImagesOf(before, productId)|;
      ghost var outs := OutcomesOf(list, uuidOf, cleanPath);
      ghost var run := Drive(outs, 0, held, []);
      ghost var count := held;
      added := [];
      var k := 0;
      while k < |list|
        invariant 0 <= k <= |list|
        invariant productService.Valid() && productService.products == old(productService.products)
        invariant ProductIndex(productService.products, productId).Some?
        invariant productService.images == before + added
        invariant forall m :: 0 <= m < |added| ==> added[m].productId == productId
        invariant count == held + |added|
        invariant Drive(outs, k, count, Urls(added)) == run
      {
        ImagesOfExtend(before, added, productId);
        var stop, recorded := StoreOne(productId, list, k, uuidOf, cleanPath, outs, count, Urls(added));
        if stop.Some? {
          DriveIsPlan(outs, 0, held, []);
          return stop, added;
        }
        Advance(before, added, recorded, productId);
        added := added + recorded;
        count := count + |recorded|;
        k := k + 1;
      }
      DriveIsPlan(outs, 0, held, []);
      failure := None;
    }

    /** One turn of `uploadImages`' loop: the file's checks, `storeFile`, and
        `createProductImage`, whose cap is checked against the images the
        product holds before this file. */
    method StoreOne(productId: nat, list: seq<UploadFile>, k: nat, uuidOf: nat -> string,
                    cleanPath: string -> string, ghost outs: seq<Outcome>, ghost count: nat,
                    ghost acc: seq<string>)
      returns (stop: Option<Reason>, recorded: seq<ProductImage>)
      requires productService.Valid() && ProductIndex(productService.products, productId).Some?
      requires k < |list| && outs == OutcomesOf(list, uuidOf, cleanPath)
      requires count == |ImagesOf(productService.images, productId)|
      modifies productService
      ensures productService.Valid() && productService.products == old(productService.products)
      ensures productService.images == old(productService.images) + recorded
      ensures |recorded| <= 1 && forall m :: 0 <= m < |recorded| ==> recorded[m].productId == productId
      ensures stop.Some? ==> Drive(outs, k, count, acc) == Upload(acc, stop) && recorded == []
      ensures stop.None? ==>
        Drive(outs, k, count, acc) == Drive(outs, k + 1, count + |recorded|, acc + Urls(recorded))
    {
      OutcomeAt(list, uuidOf, cleanPath, k);
      var outcome := OutcomeOf(list[k], uuidOf(k), cleanPath);
      match outcome {
        case Passed =>
          assert acc + Urls([]) == acc;
          return None, [];
        case Halted(reason) =>
          return Some(reason), [];
        case Named(name) =>
          var image := productService.CreateProductImage(productId, name);
          if image.Err? {
            return Some(CapReached), [];
          }
          assert Urls([image.value]) == [image.value.imageUrl];
          return None, [image.value];
      }
    }
  }
}
