/**
 * The values that flow between the image loader, the bundle factory and the
 * icon: decoded images, image bundles and load errors.
 *
 * ImageBundle.java is not part of this model; the bundle below is what its four
 * getters return (getPlainImage, getRetinaImage, getWidth, getHeight), which is
 * all that RetinaToolkit.java asks of it.
 */
module ImageBundles {
  import opened Wrappers

  /** The external form of a `java.net.URL`. */
  type Url = string

  /**
   * A decoded raster image. Only its identity and its pixel size matter
   * to the model; the pixels are left to the image codec.
   */
  datatype Image = Image(id: nat, width: int, height: int)

  /**
   * An image bundle as the icon sees it: a plain image and a retina image,
   * each of which may be null, and the logical size of the icon.
   * A bundle from another factory may report any size; the default factory's
   * bundles report the plain image's size (see PlainImageBundleFactory.Create).
   */
  datatype ImageBundle = ImageBundle(plain: Option<Image>, retina: Option<Image>, width: int, height: int)

  /** What one call of the image reader (`ImageIO.read(URL)`) can end in. */
  datatype ReadResult =
    | Decoded(image: Image)         // an image was decoded
    | NoDecoder                     // no registered reader claims the stream: `read` returns null
    | IOFailure(message: string)    // the stream could not be opened or read: IOException
    | RuntimeFailure(message: string) // an unchecked exception (a RuntimeException or an Error) from the reader

  /** The exceptions that can leave a bundle factory. */
  datatype LoadError =
    | IOError(message: string)      // an IOException from the image reader
    | MalformedURL(spec: string)    // `new URL(spec)` rejected its argument
    | Undecodable(url: Url)         // the plain image could not be decoded (see the Findings in README.md)
    | Unchecked(message: string)    // an unchecked exception from the reader, which no catch clause stops

  /** The `ImageBundleFactory` interface: a URL either yields a non-null bundle or fails with an exception. */
  type BundleFactory = Url -> Result<ImageBundle, LoadError>
}
