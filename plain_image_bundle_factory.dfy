/**
 * The default image bundle factory: it derives the retina URL from the plain
 * one by the "@2x" naming convention and loads both images eagerly, keeping
 * the bundle when only the retina image is missing.
 *
 * The image reader and the URL parser are parameters: `read` stands for
 * `ImageIO.read(URL)` and `wellFormed` says whether `new URL(spec)` accepts
 * `spec`.
 */
module PlainImageBundleFactory {
  import opened Wrappers
  import opened ImageBundles

  /** The token inserted into a plain image's URL to name its retina image. */
  const RetinaToken: string := "@2x"

  /**
   * `String.lastIndexOf(char)`: the index of the last occurrence of `c` in
   * `s`, or -1 when `c` does not occur.
   */
  function LastIndexOf(s: string, c: char): (r: int)
    ensures -1 <= r < |s|
    ensures r == -1 <==> c !in s
    ensures 0 <= r ==> s[r] == c && c !in s[r + 1..]
    decreases |s|
  {
    if |s| == 0 then -1
    else if s[|s| - 1] == c then |s| - 1
    else LastIndexOf(s[..|s| - 1], c)
  }

  /**
   * Where the retina token goes: before the last '.' of the whole string,
   * or at the end when there is no '.'.
   */
  function InsertionPoint(surl: string): (k: nat)
    ensures k <= |surl|
    ensures k == |surl| <==> '.' !in surl
    ensures k < |surl| ==> surl[k] == '.' && '.' !in surl[k + 1..]
  {
    var dot := LastIndexOf(surl, '.');
    if dot == -1 then |surl| else dot
  }

  /**
   * The string handed to `new URL(...)` by `createRetinaURL`. The search for
   * the dot runs over the whole external form, scheme and host included.
   */
  function RetinaName(surl: string): (r: string)
    ensures |r| == |surl| + |RetinaToken|
  {
    var dot := LastIndexOf(surl, '.');
    if dot == -1 then surl + RetinaToken
    else surl[..dot] + RetinaToken + surl[dot..]
  }

  /** `createRetinaURL`: the derived URL, or the MalformedURLException of `new URL`. */
  function CreateRetinaURL(original: Url, wellFormed: string -> bool): (r: Result<Url, LoadError>)
    ensures r.Success? <==> wellFormed(RetinaName(original))
    ensures r.Success? ==> r.value == RetinaName(original)
    ensures r.Failure? ==> r.error == MalformedURL(RetinaName(original))
  {
    var spec := RetinaName(original);
    if wellFormed(spec) then Success(spec) else Failure(MalformedURL(spec))
  }

  /** Text with `n` characters removed at index `i`. */
  function RemoveAt(t: string, i: nat, n: nat): string
    requires i + n <= |t|
  {
    t[..i] + t[i + n..]
  }

  /** With no '.' anywhere, the token is appended. */
  lemma NoDotAppendsToken(surl: string)
    requires '.' !in surl
    ensures RetinaName(surl) == surl + RetinaToken
  {
  }

  /**
   * The token goes immediately before the last '.': whatever index holds a
   * '.' with no '.' after it, the text before it and the text from it onward
   * are kept around the token.
   */
  lemma InsertsBeforeLastDot(surl: string, k: nat)
    requires k < |surl| && surl[k] == '.' && '.' !in surl[k + 1..]
    ensures RetinaName(surl) == surl[..k] + RetinaToken + surl[k..]
  {
  }

  /** The derived name always contains the token, at the insertion point. */
  lemma ContainsToken(surl: string)
    ensures RetinaName(surl)[InsertionPoint(surl)..InsertionPoint(surl) + |RetinaToken|] == RetinaToken
  {
  }

  /** Round trip: removing the three inserted characters gives back the original. */
  lemma RemovingTokenRestores(surl: string)
    ensures InsertionPoint(surl) + |RetinaToken| <= |RetinaName(surl)|
    ensures RemoveAt(RetinaName(surl), InsertionPoint(surl), |RetinaToken|) == surl
  {
  }

  /** Worked example: a file name with an extension. */
  lemma ExtensionExample()
    ensures RetinaName("a/b/icon.png") == "a/b/icon@2x.png"
  {
    InsertsBeforeLastDot("a/b/icon.png", 8);
  }

  /** Worked example: a file name without an extension. */
  lemma NoExtensionExample()
    ensures RetinaName("a/b/icon") == "a/b/icon@2x"
  {
    NoDotAppendsToken("a/b/icon");
  }

  /** Worked example: only the last dot counts. */
  lemma LastDotExample()
    ensures RetinaName("x.y.png") == "x.y@2x.png"
  {
    InsertsBeforeLastDot("x.y.png", 3);
  }

  /** Worked example: with no dot in the path, the dot of the host name is used. */
  lemma HostDotExample()
    ensures RetinaName("http://host.com/icon") == "http://host@2x.com/icon"
  {
    var surl := "http://host.com/icon";
    assert surl[12..] == "com/icon";
    InsertsBeforeLastDot(surl, 11);
    assert surl[..11] == "http://host" && surl[11..] == ".com/icon";
  }

  /**
   * The retina slot: the retina image, or null when the URL is malformed, the
   * read throws an IOException or the read returns null. Only an unchecked
   * exception from the reader escapes, since the catch clause names IOException.
   */
  function LoadRetina(url: Url, read: Url -> ReadResult, wellFormed: string -> bool): (r: Result<Option<Image>, LoadError>)
    ensures r.Failure? <==> wellFormed(RetinaName(url)) && read(RetinaName(url)).RuntimeFailure?
    ensures r.Failure? ==> r.error == Unchecked(read(RetinaName(url)).message)
    ensures r.Success? ==> (r.value.Some? <==> wellFormed(RetinaName(url)) && read(RetinaName(url)).Decoded?)
    ensures r.Success? && r.value.Some? ==> r.value.value == read(RetinaName(url)).image
  {
    match CreateRetinaURL(url, wellFormed)
    case Failure(_) => Success(None)
    case Success(retinaUrl) =>
      match read(retinaUrl)
      case Decoded(image) => Success(Some(image))
      case NoDecoder => Success(None)
      case IOFailure(_) => Success(None)
      case RuntimeFailure(message) => Failure(Unchecked(message))
  }

  /** The two images `create` holds on to, as written: either may be null. */
  datatype LoadedImages = LoadedImages(plainImage: Option<Image>, retinaImage: Option<Image>)

  /**
   * `create` exactly as written: any exception from reading the plain image
   * propagates before the retina image is tried, but a plain read that
   * returns null is kept as a null plain image.
   */
  function CreateAsWritten(url: Url, read: Url -> ReadResult, wellFormed: string -> bool): (r: Result<LoadedImages, LoadError>)
    ensures r.Failure? <==> read(url).IOFailure? || read(url).RuntimeFailure? || LoadRetina(url, read, wellFormed).Failure?
    ensures read(url).IOFailure? ==> r == Failure(IOError(read(url).message))
    ensures read(url).RuntimeFailure? ==> r == Failure(Unchecked(read(url).message))
    ensures r.Failure? && !read(url).IOFailure? && !read(url).RuntimeFailure? ==>
      r.error == LoadRetina(url, read, wellFormed).error
    ensures r.Success? ==> r.value.retinaImage == LoadRetina(url, read, wellFormed).value
    ensures r.Success? ==> (r.value.plainImage.Some? <==> read(url).Decoded?)
    ensures r.Success? && read(url).Decoded? ==> r.value.plainImage == Some(read(url).image)
  {
    match read(url)
    case IOFailure(message) => Failure(IOError(message))
    case RuntimeFailure(message) => Failure(Unchecked(message))
    case NoDecoder =>
      (match LoadRetina(url, read, wellFormed)
       case Failure(e) => Failure(e)
       case Success(retina) => Success(LoadedImages(None, retina)))
    case Decoded(plain) =>
      (match LoadRetina(url, read, wellFormed)
       case Failure(e) => Failure(e)
       case Success(retina) => Success(LoadedImages(Some(plain), retina)))
  }

  /** The as-written bundle's `getWidth`: None where it dereferences a null plain image. */
  function AsWrittenWidth(images: LoadedImages): (w: Option<int>)
    ensures w.Some? <==> images.plainImage.Some?
    ensures w.Some? ==> w.value == images.plainImage.value.width
  {
    match images.plainImage
    case None => None
    case Some(plain) => Some(plain.width)
  }

  /** The as-written bundle's `getHeight`: None where it dereferences a null plain image. */
  function AsWrittenHeight(images: LoadedImages): (h: Option<int>)
    ensures h.Some? <==> images.plainImage.Some?
    ensures h.Some? ==> h.value == images.plainImage.value.height
  {
    match images.plainImage
    case None => None
    case Some(plain) => Some(plain.height)
  }

  /**
   * Finding, as written: a plain URL whose stream no reader can decode gives
   * a bundle and no error, and neither its width nor its height can be computed.
   */
  lemma UndecodablePlainYieldsSizelessBundle(url: Url, read: Url -> ReadResult, wellFormed: string -> bool)
    requires read(url) == NoDecoder
    requires !read(RetinaName(url)).RuntimeFailure?
    ensures CreateAsWritten(url, read, wellFormed).Success?
    ensures AsWrittenWidth(CreateAsWritten(url, read, wellFormed).value) == None
    ensures AsWrittenHeight(CreateAsWritten(url, read, wellFormed).value) == None
  {
  }

  /**
   * `create`, with a plain read that returns null reported as a load error
   * (the corrected behaviour; it agrees with `CreateAsWritten` on every other
   * input, see `CreateAgreesWithAsWritten`).
   */
  function Create(url: Url, read: Url -> ReadResult, wellFormed: string -> bool): (r: Result<ImageBundle, LoadError>)
    ensures r.Failure? <==> !read(url).Decoded? || LoadRetina(url, read, wellFormed).Failure?
    ensures read(url).IOFailure? ==> r == Failure(IOError(read(url).message))
    ensures read(url).RuntimeFailure? ==> r == Failure(Unchecked(read(url).message))
    ensures read(url).NoDecoder? ==> r == Failure(Undecodable(url))
    ensures read(url).Decoded? && r.Failure? ==> r.error == Unchecked(read(RetinaName(url)).message)
    ensures r.Success? ==> r.value.plain == Some(read(url).image)
    ensures r.Success? ==> r.value.width == read(url).image.width && r.value.height == read(url).image.height
    ensures r.Success? ==> (r.value.retina.Some? <==> wellFormed(RetinaName(url)) && read(RetinaName(url)).Decoded?)
    ensures r.Success? && r.value.retina.Some? ==> r.value.retina.value == read(RetinaName(url)).image
  {
    match read(url)
    case IOFailure(message) => Failure(IOError(message))
    case RuntimeFailure(message) => Failure(Unchecked(message))
    case NoDecoder => Failure(Undecodable(url))
    case Decoded(plain) =>
      match LoadRetina(url, read, wellFormed)
      case Failure(e) => Failure(e)
      case Success(retina) => Success(ImageBundle(Some(plain), retina, plain.width, plain.height))
  }

  /**
   * The factory instance `RetinaToolkit` uses by default: it answers every URL
   * as `Create` does, so each bundle it returns has a plain image and that
   * image's size.
   */
  function DefaultFactory(read: Url -> ReadResult, wellFormed: string -> bool): (f: BundleFactory)
    ensures forall url :: f(url) == Create(url, read, wellFormed)
    ensures forall url :: f(url).Success? ==>
      f(url).value.plain.Some? && f(url).value.width == f(url).value.plain.value.width
        && f(url).value.height == f(url).value.plain.value.height
  {
    url => Create(url, read, wellFormed)
  }

  /**
   * Finding, corrected: every bundle `Create` returns has a plain image, and
   * its width and height are the plain image's.
   */
  lemma CreatedBundleHasPlainSize(url: Url, read: Url -> ReadResult, wellFormed: string -> bool)
    requires Create(url, read, wellFormed).Success?
    ensures var b := Create(url, read, wellFormed).value;
      b.plain.Some? && b.width == b.plain.value.width && b.height == b.plain.value.height
  {
  }

  /** Apart from a null plain read, `Create` and the code as written build the same bundle. */
  lemma CreateAgreesWithAsWritten(url: Url, read: Url -> ReadResult, wellFormed: string -> bool)
    requires !read(url).NoDecoder?
    ensures Create(url, read, wellFormed).Success? == CreateAsWritten(url, read, wellFormed).Success?
    ensures Create(url, read, wellFormed).Failure? ==>
      Create(url, read, wellFormed).error == CreateAsWritten(url, read, wellFormed).error
    ensures Create(url, read, wellFormed).Success? ==>
      var b := Create(url, read, wellFormed).value;
      var images := CreateAsWritten(url, read, wellFormed).value;
      b.plain == images.plainImage && b.retina == images.retinaImage
        && Some(b.width) == AsWrittenWidth(images) && Some(b.height) == AsWrittenHeight(images)
  {
  }

  /**
   * A missing retina image is not an error: with a malformed derived URL, an
   * IOException or a null read for it, the bundle is built with an empty retina slot.
   */
  lemma MissingRetinaKeepsBundle(url: Url, read: Url -> ReadResult, wellFormed: string -> bool)
    requires read(url).Decoded?
    requires !wellFormed(RetinaName(url)) || read(RetinaName(url)).NoDecoder? || read(RetinaName(url)).IOFailure?
    ensures Create(url, read, wellFormed).Success?
    ensures Create(url, read, wellFormed).value.retina == None
  {
  }

  /** An unchecked exception from the retina read is not caught: `create` fails with it. */
  lemma UncheckedRetinaFailureEscapes(url: Url, read: Url -> ReadResult, wellFormed: string -> bool)
    requires read(url).Decoded? && wellFormed(RetinaName(url)) && read(RetinaName(url)).RuntimeFailure?
    ensures Create(url, read, wellFormed) == Failure(Unchecked(read(RetinaName(url)).message))
    ensures CreateAsWritten(url, read, wellFormed) == Failure(Unchecked(read(RetinaName(url)).message))
  {
  }
}
