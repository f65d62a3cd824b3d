# jretina in Dafny

A model of jretina's retina-icon core. The model covers three pieces:

- how a display is judged to be retina (double density);
- how the default bundle factory names and loads the "@2x" variant of an image and keeps the bundle when that variant is missing;
- how the icon chooses, at paint time, which image to draw and at what scale.

The platform is passed in as inputs:

- A screen device is the outcome of reflecting on its private `scale` field.
- A graphics context is either a `Graphics2D` bound to a device or some other `Graphics`.
- `ImageIO.read(URL)` is a parameter `read`. A call ends in a decoded image, in a null result (no reader for the stream), in an IOException or in an unchecked exception.
- Whether `new URL(spec)` accepts a string is a parameter `wellFormed`.
- A URL is its external-form string.
- Painting returns the draw commands the icon would issue, instead of issuing them.

Files:

- `wrappers.dfy`: Option (null) and Result (an exception).
- `image_bundle.dfy`: images, the image bundle, the loader's outcomes and the factory interface.
- `plain_image_bundle_factory.dfy`: `PlainImageBundleFactory`. It covers the retina name, `createRetinaURL` and `create`.
- `retina_toolkit.dfy`: `RetinaToolkit`. It covers the three `isRetina` checks, `createIcon` and the icon's paint logic.

On a standard-density context with a null plain image, `paintIcon` falls back to `paintRetinaImage` (RetinaToolkit.java:179). That call still draws the retina image at half scale in the icon's box (RetinaToolkit.java:150-152), not unscaled, and the model does the same.

## Model

| member | source | states |
|---|---|---|
| PlainImageBundleFactory.LastIndexOf | jretina/src/main/java/ro/emilianbold/jretina/impl/PlainImageBundleFactory.java:40 | `String.lastIndexOf(char)`. The result is -1 exactly when the character is absent. Otherwise the character is at the result and does not occur after it. |
| PlainImageBundleFactory.InsertionPoint | jretina/src/main/java/ro/emilianbold/jretina/impl/PlainImageBundleFactory.java:40-44 | The insertion point is the end of the string exactly when there is no '.'. Otherwise it holds the last '.' of the whole string. |
| PlainImageBundleFactory.RetinaName | jretina/src/main/java/ro/emilianbold/jretina/impl/PlainImageBundleFactory.java:41-45 | The derived name is always 3 characters longer than the original. |
| PlainImageBundleFactory.NoDotAppendsToken | jretina/src/main/java/ro/emilianbold/jretina/impl/PlainImageBundleFactory.java:41-42 | With no '.' in the external form, the derived name is the original followed by "@2x". |
| PlainImageBundleFactory.InsertsBeforeLastDot | jretina/src/main/java/ro/emilianbold/jretina/impl/PlainImageBundleFactory.java:40-44 | For the index of any '.' with no '.' after it, the derived name is the text before that dot, then "@2x", then the text from the dot onward. |
| PlainImageBundleFactory.ContainsToken | jretina/src/main/java/ro/emilianbold/jretina/impl/PlainImageBundleFactory.java:41-45 | The derived name holds "@2x" at the insertion point. |
| PlainImageBundleFactory.RemovingTokenRestores | jretina/src/main/java/ro/emilianbold/jretina/impl/PlainImageBundleFactory.java:40-45 | Round trip: deleting the 3 characters at the insertion point gives back the original string. |
| PlainImageBundleFactory.ExtensionExample | jretina/src/main/java/ro/emilianbold/jretina/impl/PlainImageBundleFactory.java:43-44 | "a/b/icon.png" becomes "a/b/icon@2x.png". |
| PlainImageBundleFactory.NoExtensionExample | jretina/src/main/java/ro/emilianbold/jretina/impl/PlainImageBundleFactory.java:41-42 | "a/b/icon" becomes "a/b/icon@2x". |
| PlainImageBundleFactory.LastDotExample | jretina/src/main/java/ro/emilianbold/jretina/impl/PlainImageBundleFactory.java:40-44 | "x.y.png" becomes "x.y@2x.png": only the last dot counts. |
| PlainImageBundleFactory.HostDotExample | jretina/src/main/java/ro/emilianbold/jretina/impl/PlainImageBundleFactory.java:39-44 | The search covers the whole external form, so "http://host.com/icon" becomes "http://host@2x.com/icon". |
| PlainImageBundleFactory.CreateRetinaURL | jretina/src/main/java/ro/emilianbold/jretina/impl/PlainImageBundleFactory.java:37-48 | The result is the derived URL exactly when `new URL` accepts the derived name. Otherwise it is a MalformedURLException for that name. |
| PlainImageBundleFactory.LoadRetina | jretina/src/main/java/ro/emilianbold/jretina/impl/PlainImageBundleFactory.java:54-59 | The retina slot holds an image exactly when the derived URL is well formed and the read decodes it. A malformed URL, an IOException or a null read leave the slot null. Only an unchecked exception from the read escapes, because the catch clause names IOException alone. |
| PlainImageBundleFactory.CreateAsWritten | jretina/src/main/java/ro/emilianbold/jretina/impl/PlainImageBundleFactory.java:51-72 | `create` as written. An IOException or unchecked exception from the plain read propagates, and wins over anything the retina read does. Otherwise the only failure is the unchecked exception that escapes LoadRetina. A null plain read is kept as a null plain image, and a decoded one is kept as exactly that image. The retina image is the one LoadRetina gives. |
| PlainImageBundleFactory.AsWrittenWidth | jretina/src/main/java/ro/emilianbold/jretina/impl/PlainImageBundleFactory.java:74-77 | The as-written `getWidth` has a value exactly when the plain image is non-null, and that value is the plain image's width. |
| PlainImageBundleFactory.AsWrittenHeight | jretina/src/main/java/ro/emilianbold/jretina/impl/PlainImageBundleFactory.java:79-82 | The as-written `getHeight` has a value exactly when the plain image is non-null, and that value is the plain image's height. |
| PlainImageBundleFactory.UndecodablePlainYieldsSizelessBundle | jretina/src/main/java/ro/emilianbold/jretina/impl/PlainImageBundleFactory.java:52-82 | Finding, as written: a plain read that returns null still yields a bundle, and its `getWidth` and `getHeight` both dereference null. |
| PlainImageBundleFactory.Create | jretina/src/main/java/ro/emilianbold/jretina/impl/PlainImageBundleFactory.java:51-84 | `create`, with the Finding corrected. It fails exactly when the plain image is not decoded or an unchecked exception escapes the retina read. Exceptions from the plain read propagate unchanged. On success the bundle holds the plain image and the plain image's width and height. Its retina slot is exactly what the retina read decoded. |
| PlainImageBundleFactory.DefaultFactory | jretina/src/main/java/ro/emilianbold/jretina/RetinaToolkit.java:39 | The default factory answers every URL as `Create` does. Every bundle it returns has a plain image, and the bundle's width and height are that image's. |
| PlainImageBundleFactory.CreatedBundleHasPlainSize | jretina/src/main/java/ro/emilianbold/jretina/impl/PlainImageBundleFactory.java:63-83 | Every bundle `Create` returns has a non-null plain image whose width and height are the bundle's. |
| PlainImageBundleFactory.CreateAgreesWithAsWritten | jretina/src/main/java/ro/emilianbold/jretina/impl/PlainImageBundleFactory.java:51-84 | Except when the plain read returns null, `Create` and the code as written give the same outcome. Both give the same error, or the same images with the same width and height. |
| PlainImageBundleFactory.MissingRetinaKeepsBundle | jretina/src/main/java/ro/emilianbold/jretina/impl/PlainImageBundleFactory.java:54-59 | A decoded plain image still yields a bundle, with a null retina slot, when the retina URL is malformed, its read throws an IOException or its read returns null. |
| PlainImageBundleFactory.UncheckedRetinaFailureEscapes | jretina/src/main/java/ro/emilianbold/jretina/impl/PlainImageBundleFactory.java:55-57 | An unchecked exception from the retina read is not caught: `create` fails with it, as written and corrected. |
| RetinaToolkit.IsRetinaDevice | jretina/src/main/java/ro/emilianbold/jretina/RetinaToolkit.java:68-79 | A device is retina exactly when its `scale` field holds an Integer equal to 2. |
| RetinaToolkit.DeviceProbeFailsClosed | jretina/src/main/java/ro/emilianbold/jretina/RetinaToolkit.java:69-78 | Each of these yields false: a missing field, an access failure, null, a non-Integer value, or any other integer. |
| RetinaToolkit.IsRetinaEnvironment | jretina/src/main/java/ro/emilianbold/jretina/RetinaToolkit.java:52-62 | `isRetina()` scans the screens and returns at the first retina one. It is true exactly when some screen is retina, so it is false for no screens. |
| RetinaToolkit.IsRetinaGraphics | jretina/src/main/java/ro/emilianbold/jretina/RetinaToolkit.java:86-95 | A context that is not a `Graphics2D` is never retina. A `Graphics2D` is retina exactly when its device is. |
| RetinaToolkit.CreateIcon | jretina/src/main/java/ro/emilianbold/jretina/RetinaToolkit.java:121-124 | The factory's error propagates. Otherwise the icon wraps exactly the bundle the factory made. |
| RetinaToolkit.IconWidth | jretina/src/main/java/ro/emilianbold/jretina/RetinaToolkit.java:126-128 | `getIconWidth` is the width the bundle reports. It does not depend on which image is painted or whether the retina image is null. |
| RetinaToolkit.IconHeight | jretina/src/main/java/ro/emilianbold/jretina/RetinaToolkit.java:131-133 | `getIconHeight` is the height the bundle reports. It does not depend on which image is painted or whether the retina image is null. |
| RetinaToolkit.DefaultIconMeasuresPlainImage | jretina/src/main/java/ro/emilianbold/jretina/RetinaToolkit.java:121-133 | An icon built with the default factory has exactly the plain image's width and height, whether or not a retina image was found. |
| RetinaToolkit.PaintRetinaImage | jretina/src/main/java/ro/emilianbold/jretina/RetinaToolkit.java:143-156 | Returns false exactly when the retina image is null. Otherwise it draws the retina image at half scale in the box at (x, y) with the icon's width and height. |
| RetinaToolkit.PaintPlainImage | jretina/src/main/java/ro/emilianbold/jretina/RetinaToolkit.java:158-168 | Returns false exactly when the plain image is null. Otherwise it draws the plain image unscaled at (x, y). |
| RetinaToolkit.PaintIcon | jretina/src/main/java/ro/emilianbold/jretina/RetinaToolkit.java:171-182 | At most one image is drawn. Nothing is drawn exactly when both images are null. |
| RetinaToolkit.RetinaContextDrawsRetinaImage | jretina/src/main/java/ro/emilianbold/jretina/RetinaToolkit.java:143-156 | On a retina context with a retina image, the only command is the retina image at half scale in the icon's box at (x, y). The plain image is not drawn. |
| RetinaToolkit.RetinaContextFallsBackToPlain | jretina/src/main/java/ro/emilianbold/jretina/RetinaToolkit.java:158-175 | On a retina context without a retina image, the plain image is drawn unscaled at (x, y), or nothing if it is null. |
| RetinaToolkit.StandardContextDrawsPlainImage | jretina/src/main/java/ro/emilianbold/jretina/RetinaToolkit.java:176-178 | On any other context with a plain image, only the plain image is drawn, unscaled at (x, y). |
| RetinaToolkit.StandardContextFallsBackToHalfScaledRetina | jretina/src/main/java/ro/emilianbold/jretina/RetinaToolkit.java:176-181 | On any other context without a plain image, the retina image is drawn, still at half scale in the icon's box, or nothing if it is null. |
| RetinaToolkit.PaintDependsOnlyOnDensity | jretina/src/main/java/ro/emilianbold/jretina/RetinaToolkit.java:171-182 | Two contexts of the same density get the same draw commands, so repeated paints with equal inputs draw the same thing. |
| RetinaToolkit.HalfScaledDrawFillsIconBox | jretina/src/main/java/ro/emilianbold/jretina/RetinaToolkit.java:150-152 | Every half-scaled draw uses the box at (x, y) with the icon's width and height. |

## Findings

| source | as written | input that shows it | evidently intended | confidence | as-written member | corrected member |
|---|---|---|---|---|---|---|
| jretina/src/main/java/ro/emilianbold/jretina/impl/PlainImageBundleFactory.java:52-82 | `ImageIO.read` returns null when no reader understands the stream. `create` keeps that null as the plain image, and the bundle's `getWidth`/`getHeight` dereference it. | A plain URL that opens but whose content no reader decodes, so `read` returns null. | Treat this as a failed plain load. The factory interface raises IOException "if loading fails" (ImageBundleFactory.java:34). This bundle's `getWidth` and `getHeight` cannot work without a plain image (PlainImageBundleFactory.java:76, 81). | medium; not executed | PlainImageBundleFactory.UndecodablePlainYieldsSizelessBundle | PlainImageBundleFactory.CreatedBundleHasPlainSize |

The rest of the model uses the corrected `Create`. On a null plain read it fails with `Undecodable` instead of returning a bundle.

## Left out

- Image decoding, opening URL streams and `java.net.URL` parsing. These are the parameters `read` and `wellFormed`. A URL is its external form, so the model ignores any normalisation `new URL` applies.
- Reflection and screen enumeration. A device is the outcome of probing its `scale` field, and the environment is a sequence of devices. Exceptions outside the caught list also propagate out of `isRetina(GraphicsDevice)` in the code; InaccessibleObjectException on newer JDKs is one. The model leaves them out.
- RetinaToolkit.IsRetinaEnvironment: on a headless JVM, `getScreenDevices()` (RetinaToolkit.java:55) throws HeadlessException, so `isRetina()` throws instead of returning false. The model always receives a screen list and does not capture that exception.
- The `Graphics2D` operations `create`, `scale(0.5, 0.5)`, `drawImage` and `dispose`. They appear only as the tag `DrawHalfScaled`, with no floating-point transform, and the component passed as image observer is dropped.
- RetinaToolkit.PaintRetinaImage: the cast of `g.create(...)` to `Graphics2D` (RetinaToolkit.java:150) is assumed to succeed. A context that is not a `Graphics2D` and whose sub-contexts are not either would throw ClassCastException on the standard-density fallback.
- The singleton `INSTANCE`/`getDefault`, `createIcon(URL)` and `DEFAULT_FACTORY`. These are plumbing that only delegates; `DefaultFactory` stands for the factory they use.
- ImageBundle.java is not part of this model. The bundle is the value its getters return.
- Swing `Component` and image-observer integration.
- Integer widths: widths, heights and coordinates are unbounded integers. The model does no arithmetic on them, so this makes no difference.
