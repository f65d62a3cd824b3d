/**
 * Density detection and the retina icon.
 *
 * The platform is an input: a screen device is what reflection finds in its
 * private `scale` field, a graphics context is either a `Graphics2D` bound to
 * a device or some other `Graphics`, and painting yields the draw commands
 * the icon issues instead of issuing them.
 */
module RetinaToolkit {
  import opened Wrappers
  import opened ImageBundles
  import PlainImageBundleFactory

  newtype int32 = x: int | -0x8000_0000 <= x < 0x8000_0000

  /** A value read from a field by reflection: an `Integer`, null, or an object of any other class. */
  datatype JavaValue = JInteger(i: int32) | JNull | JOtherObject

  /** What reflecting on a device's `scale` field ends in. */
  datatype ScaleProbe =
    | FieldValue(value: JavaValue)  // the field was found and read
    | NoSuchField                   // NoSuchFieldException
    | AccessFailure                 // IllegalAccessException, IllegalArgumentException or SecurityException

  /** A screen device, reduced to what reflection can find out about its scale. */
  datatype GraphicsDevice = GraphicsDevice(scale: ScaleProbe)

  /** A graphics context: a `Graphics2D` knows the device it draws on; any other `Graphics` does not. */
  datatype Graphics = Graphics2D(device: GraphicsDevice) | OtherGraphics

  /**
   * `isRetina(GraphicsDevice)`: the device is retina exactly when its `scale`
   * field holds an Integer equal to 2; every failure reads as "not retina".
   */
  function IsRetinaDevice(device: GraphicsDevice): (r: bool)
    ensures r <==> device.scale == FieldValue(JInteger(2))
  {
    match device.scale
    case FieldValue(JInteger(v)) => v == 2
    case FieldValue(_) => false
    case NoSuchField => false
    case AccessFailure => false
  }

  /** Every other outcome of the probe gives false. */
  lemma DeviceProbeFailsClosed(device: GraphicsDevice)
    requires device.scale in {NoSuchField, AccessFailure, FieldValue(JNull)}
      || (device.scale.FieldValue? && device.scale.value.JOtherObject?)
      || (device.scale.FieldValue? && device.scale.value.JInteger? && device.scale.value.i != 2)
    ensures !IsRetinaDevice(device)
  {
  }

  /**
   * `isRetina()`: scans the screens in order and stops at the first retina
   * one; true exactly when some screen is retina, so false with no screens.
   */
  method IsRetinaEnvironment(screens: seq<GraphicsDevice>) returns (retina: bool)
    ensures retina <==> exists i :: 0 <= i < |screens| && IsRetinaDevice(screens[i])
  {
    for i := 0 to |screens|
      invariant forall j :: 0 <= j < i ==> !IsRetinaDevice(screens[j])
    {
      if IsRetinaDevice(screens[i]) {
        return true;
      }
    }
    return false;
  }

  /** `isRetina(Graphics)`: false unless the context is a `Graphics2D`; then that of its device. */
  function IsRetinaGraphics(g: Graphics): (r: bool)
    ensures !g.Graphics2D? ==> !r
    ensures g.Graphics2D? ==> (r <==> IsRetinaDevice(g.device))
  {
    match g
    case Graphics2D(device) => IsRetinaDevice(device)
    case OtherGraphics => false
  }

  /** The icon `createIcon` returns: it keeps the bundle its factory made. */
  datatype RetinaIcon = RetinaIcon(images: ImageBundle)

  /** One drawing operation the icon performs on a graphics context. */
  datatype DrawCommand =
    /** `g.drawImage(image, x, y, c)`: the image at its own size with its corner at (x, y). */
    | DrawUnscaled(image: Image, x: int, y: int)
    /**
     * `g.create(x, y, width, height)`, `scale(0.5, 0.5)`, `drawImage(image, 0, 0, c)`,
     * `dispose()`: the image at half its size in the box at (x, y) of the given size.
     */
    | DrawHalfScaled(image: Image, x: int, y: int, width: int, height: int)

  /** `createIcon(URL, ImageBundleFactory)`: the factory's error propagates, otherwise the icon wraps its bundle. */
  function CreateIcon(url: Url, factory: BundleFactory): (r: Result<RetinaIcon, LoadError>)
    ensures r.Failure? <==> factory(url).Failure?
    ensures r.Failure? ==> r.error == factory(url).error
    ensures r.Success? ==> r.value.images == factory(url).value
  {
    match factory(url)
    case Failure(e) => Failure(e)
    case Success(bundle) => Success(RetinaIcon(bundle))
  }

  /** `getIconWidth`: the width the bundle reports, whatever image is later painted. */
  function IconWidth(icon: RetinaIcon): (w: int)
    ensures w == icon.images.width
  {
    icon.images.width
  }

  /** `getIconHeight`: the height the bundle reports, whatever image is later painted. */
  function IconHeight(icon: RetinaIcon): (h: int)
    ensures h == icon.images.height
  {
    icon.images.height
  }

  /**
   * `paintRetinaImage`: None (returns false) when the retina image is null;
   * otherwise the retina image, half-scaled in the icon's box at (x, y).
   */
  function PaintRetinaImage(icon: RetinaIcon, x: int, y: int): (d: Option<DrawCommand>)
    ensures d.None? <==> icon.images.retina.None?
    ensures d.Some? ==> d.value == DrawHalfScaled(icon.images.retina.value, x, y, IconWidth(icon), IconHeight(icon))
  {
    match icon.images.retina
    case None => None
    case Some(retina) => Some(DrawHalfScaled(retina, x, y, IconWidth(icon), IconHeight(icon)))
  }

  /**
   * `paintPlainImage`: None (returns false) when the plain image is null;
   * otherwise the plain image, unscaled at (x, y).
   */
  function PaintPlainImage(icon: RetinaIcon, x: int, y: int): (d: Option<DrawCommand>)
    ensures d.None? <==> icon.images.plain.None?
    ensures d.Some? ==> d.value == DrawUnscaled(icon.images.plain.value, x, y)
  {
    match icon.images.plain
    case None => None
    case Some(plain) => Some(DrawUnscaled(plain, x, y))
  }

  /** The draw commands of a paint helper that returned `painted`. */
  function Commands(painted: Option<DrawCommand>): (s: seq<DrawCommand>)
    ensures |s| <= 1
    ensures s == [] <==> painted.None?
  {
    match painted
    case None => []
    case Some(d) => [d]
  }

  /**
   * `paintIcon`: on a retina context try the retina image, then the plain
   * one; elsewhere try the plain image, then the retina one. At most one
   * image is drawn, and none only when both are null.
   */
  function PaintIcon(icon: RetinaIcon, g: Graphics, x: int, y: int): (cmds: seq<DrawCommand>)
    ensures |cmds| <= 1
    ensures cmds == [] <==> icon.images.plain.None? && icon.images.retina.None?
  {
    if IsRetinaGraphics(g) then
      match PaintRetinaImage(icon, x, y)
      case Some(d) => [d]
      case None => Commands(PaintPlainImage(icon, x, y))
    else
      match PaintPlainImage(icon, x, y)
      case Some(d) => [d]
      case None => Commands(PaintRetinaImage(icon, x, y))
  }

  /** Retina context with a retina image: the retina image alone, at half scale in the icon's box. */
  lemma RetinaContextDrawsRetinaImage(icon: RetinaIcon, g: Graphics, x: int, y: int)
    requires IsRetinaGraphics(g) && icon.images.retina.Some?
    ensures PaintIcon(icon, g, x, y)
      == [DrawHalfScaled(icon.images.retina.value, x, y, icon.images.width, icon.images.height)]
  {
  }

  /** Retina context without a retina image: the plain image unscaled at (x, y), if there is one. */
  lemma RetinaContextFallsBackToPlain(icon: RetinaIcon, g: Graphics, x: int, y: int)
    requires IsRetinaGraphics(g) && icon.images.retina.None?
    ensures icon.images.plain.Some? ==> PaintIcon(icon, g, x, y) == [DrawUnscaled(icon.images.plain.value, x, y)]
    ensures icon.images.plain.None? ==> PaintIcon(icon, g, x, y) == []
  {
  }

  /** Other contexts with a plain image: the plain image alone, unscaled at (x, y). */
  lemma StandardContextDrawsPlainImage(icon: RetinaIcon, g: Graphics, x: int, y: int)
    requires !IsRetinaGraphics(g) && icon.images.plain.Some?
    ensures PaintIcon(icon, g, x, y) == [DrawUnscaled(icon.images.plain.value, x, y)]
  {
  }

  /**
   * Other contexts without a plain image: the retina image, still at half
   * scale in the icon's box, if there is one.
   */
  lemma StandardContextFallsBackToHalfScaledRetina(icon: RetinaIcon, g: Graphics, x: int, y: int)
    requires !IsRetinaGraphics(g) && icon.images.plain.None?
    ensures icon.images.retina.Some? ==>
      PaintIcon(icon, g, x, y) == [DrawHalfScaled(icon.images.retina.value, x, y, icon.images.width, icon.images.height)]
    ensures icon.images.retina.None? ==> PaintIcon(icon, g, x, y) == []
  {
  }

  /**
   * Painting depends on the context only through its density: two contexts
   * of the same density get the same commands, every time.
   */
  lemma PaintDependsOnlyOnDensity(icon: RetinaIcon, g1: Graphics, g2: Graphics, x: int, y: int)
    requires IsRetinaGraphics(g1) == IsRetinaGraphics(g2)
    ensures PaintIcon(icon, g1, x, y) == PaintIcon(icon, g2, x, y)
  {
  }

  /**
   * An icon made with the default factory measures exactly its plain image,
   * whether or not a retina image was found.
   */
  lemma DefaultIconMeasuresPlainImage(url: Url, read: Url -> ReadResult, wellFormed: string -> bool)
    requires CreateIcon(url, PlainImageBundleFactory.DefaultFactory(read, wellFormed)).Success?
    ensures read(url).Decoded?
    ensures var icon := CreateIcon(url, PlainImageBundleFactory.DefaultFactory(read, wellFormed)).value;
      IconWidth(icon) == read(url).image.width && IconHeight(icon) == read(url).image.height
  {
  }

  /**
   * Painting never changes the icon's size: every box a half-scaled draw
   * uses is the icon's width and height.
   */
  lemma HalfScaledDrawFillsIconBox(icon: RetinaIcon, g: Graphics, x: int, y: int)
    ensures forall d :: d in PaintIcon(icon, g, x, y) && d.DrawHalfScaled? ==>
      d.width == IconWidth(icon) && d.height == IconHeight(icon) && d.x == x && d.y == y
  {
  }
}
