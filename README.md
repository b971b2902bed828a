# Tile URL resolution and tile fetch of `AirMapUrlTile`

This project models the tile pipeline of the Android `AirMapUrlTile` map
layer (react-native-maps) in Dafny and proves what it promises.

A tile is requested by its coordinate (x, y, zoom). The layer's inner
`Wrapper` turns the coordinate into a URL:

- it optionally flips the row from XYZ numbering to bottom-origin TMS
  numbering with `(1 << zoom) - y - 1`;
- it substitutes `{x}`, `{y}` and `{z}` in the URL template with three
  chained `String.replace` calls;
- it returns no URL when the zoom is outside `[minimumZ, maximumZ]`, where a
  bound that is not positive is no bound;
- it parses the text with `java.net.URL` and throws `AssertionError` when that
  fails.

One tile provider hands that URL to the map. The other fetches the bytes
itself. It opens an HTTPS connection, adds every request header, and reads
the body in reads of at most 4096 bytes into a `ByteArrayOutputStream`. Any
`IOException` or `OutOfMemoryError` becomes `null`, and then `NO_TILE`. Both
streams are closed on every way out. The connection is cast to
`HttpsURLConnection` without a check, so a URL that does not give an HTTPS
connection throws `ClassCastException`, which nothing catches.

Modules:

- `JavaInt`: Java `int` arithmetic: 32-bit wrap-around and `1 << n` with its
  five-bit shift count.
- `Text`: `String.replace` as a left-to-right scan that replaces
  non-overlapping occurrences.
- `Decimal`: `Integer.toString`, and a decimal parser to check it against.
- `TileUrl`: `getTileUrl` and `getUrl` as functions.
- `TileFetch`: the transport doubles and the read loop, plus `ExpectedRead`.
  `ExpectedRead` is the result a fetch must produce for a given transport.
- `UrlTile`: the layer with its setters, `Wrapper`, and the two providers as
  classes. Each fetch method is proved against `ExpectedRead`.

Behaviours of the code that the model keeps as they are:

- Every occurrence of a placeholder is replaced, not only the first one.
- Any zoom bound that is zero or negative switches its check off; zero is not
  the only value that means "no bound".
- A malformed template is not rejected when it is set. It fails on each tile
  request, inside `getUrl`, with an `AssertionError`.
- The two provider variants are two separate classes: one hands the URL to
  the map, the other fetches the bytes itself.

Inputs that come from outside the code are parameters:

- `Wrapper.validUrl` is what `java.net.URL` accepts.
- `Connection` and `InputStream` stand for the network.
  - `isHttps` says whether `openConnection` returned an `HttpsURLConnection`.
  - `refuses` stands for an `IOException` from `connect`/`getInputStream`.
  - `chunks` is what the successive reads return.
  - `failsAt` is the read call that throws.
  - `closeFails` says whether `close` throws.
- `ByteBuffer.capacity` is the memory the buffer may grow to. Growing past it
  stands for `OutOfMemoryError`.

## Model

| member | source | states |
|---|---|---|
| `JavaInt.Wrap` | lib/android/src/main/java/com/airbnb/android/react/maps/AirMapUrlTile.java:116 | the 32-bit result is the exact value whenever that fits in an `int` |
| `JavaInt.WrapOffset` | lib/android/src/main/java/com/airbnb/android/react/maps/AirMapUrlTile.java:116 | the 32-bit result always differs from the exact value by a whole multiple of 2^32 |
| `JavaInt.WrapCongruent` | lib/android/src/main/java/com/airbnb/android/react/maps/AirMapUrlTile.java:116 | values that differ by a multiple of 2^32 truncate to the same `int` |
| `JavaInt.ShiftLeftOne` | lib/android/src/main/java/com/airbnb/android/react/maps/AirMapUrlTile.java:116 | `1 << count` in Java: 2 to the power of the count's low five bits, truncated to 32 bits; its value is pinned by `ShiftLeftOneExact` and `FlipRowOverflowsAtZoom31` |
| `JavaInt.ShiftLeftOneExact` | lib/android/src/main/java/com/airbnb/android/react/maps/AirMapUrlTile.java:116 | for zoom 0..30, `1 << zoom` is exactly 2^zoom |
| `TileUrl.FlipRow` | lib/android/src/main/java/com/airbnb/android/react/maps/AirMapUrlTile.java:115-117 | the row flip `(1 << zoom) - y - 1` in `int` arithmetic; its properties are `FlipRowInvolution`, `FlipRowInRange` and `FlipRowOverflowsAtZoom31` |
| `TileUrl.FlipRowInvolution` | lib/android/src/main/java/com/airbnb/android/react/maps/AirMapUrlTile.java:115-117 | flipping a row twice at the same zoom gives back the row, for every `int` row and zoom, wrap-around included |
| `TileUrl.FlipRowInRange` | lib/android/src/main/java/com/airbnb/android/react/maps/AirMapUrlTile.java:115-117 | for zoom 0..30 and a row in `[0, 2^zoom)`, the flipped row is `2^zoom - y - 1` and lies in the same range |
| `TileUrl.FlipRowOverflowsAtZoom31` | lib/android/src/main/java/com/airbnb/android/react/maps/AirMapUrlTile.java:116 | at zoom 31 the shift gives `Integer.MIN_VALUE`, and row 0 flips to `Integer.MAX_VALUE` |
| `Text.Replace` | lib/android/src/main/java/com/airbnb/android/react/maps/AirMapUrlTile.java:107-110 | `String.replace` with a non-empty target: a left-to-right scan that replaces each occurrence not overlapping an earlier replaced one; its properties are the `Replace…` lemmas below |
| `Text.ReplaceAbsent` | lib/android/src/main/java/com/airbnb/android/react/maps/AirMapUrlTile.java:107-110 | text without the target comes back from `replace` unchanged |
| `Text.ReplaceChars` | lib/android/src/main/java/com/airbnb/android/react/maps/AirMapUrlTile.java:107-110 | every character of the result comes from the text or from the replacement |
| `Text.ReplaceRemovesAll` | lib/android/src/main/java/com/airbnb/android/react/maps/AirMapUrlTile.java:107-110 | with a non-empty replacement that shares no character with the target, no occurrence of the target is left |
| `Text.ReplaceCreatesNothing` | lib/android/src/main/java/com/airbnb/android/react/maps/AirMapUrlTile.java:107-110 | such a replacement cannot create a pattern the text did not contain |
| `Text.ReplaceSkipsPrefix` | lib/android/src/main/java/com/airbnb/android/react/maps/AirMapUrlTile.java:107-110 | text in which no target can start is copied unchanged ahead of the replaced rest |
| `Text.ReplaceSkipsOther` | lib/android/src/main/java/com/airbnb/android/react/maps/AirMapUrlTile.java:107-110 | a different placeholder is copied unchanged ahead of the replaced rest |
| `Text.ReplaceNoMatchAtHead` | lib/android/src/main/java/com/airbnb/android/react/maps/AirMapUrlTile.java:107-110 | where no target starts at the first character, that character is copied and the scan goes on from the next one |
| `Decimal.NatText` | lib/android/src/main/java/com/airbnb/android/react/maps/AirMapUrlTile.java:108-110 | digits only, at least one, and no leading zero except for 0 itself |
| `Decimal.DecimalText` | lib/android/src/main/java/com/airbnb/android/react/maps/AirMapUrlTile.java:108-110 | `Integer.toString` yields digits and a minus sign only, and it starts with `-` exactly for negative numbers |
| `Decimal.DecimalRoundTrip` | lib/android/src/main/java/com/airbnb/android/react/maps/AirMapUrlTile.java:108-110 | parsing the decimal text of any number gives that number back |
| `Decimal.DecimalTextInjective` | lib/android/src/main/java/com/airbnb/android/react/maps/AirMapUrlTile.java:108-110 | different numbers give different texts, so the URL identifies the coordinate |
| `TileUrl.TileUrl` | lib/android/src/main/java/com/airbnb/android/react/maps/AirMapUrlTile.java:106-111 | `getTileUrl`: the three chained replaces of `{x}`, `{y}` and `{z}`, in that order; what it yields is stated by the lemmas below |
| `TileUrl.TileUrlIsSubstituteAll` | lib/android/src/main/java/com/airbnb/android/react/maps/AirMapUrlTile.java:106-111 | for every template, the three chained replaces equal a single left-to-right pass that puts the decimal text of x, y or zoom in place of each `{x}`, `{y}` or `{z}` and copies every other character, stray braces and other `{…}` groups included |
| `TileUrl.TileUrlKeepsStrayBrace` | lib/android/src/main/java/com/airbnb/android/react/maps/AirMapUrlTile.java:106-111 | the template `{{x}` for x 3 gives `{3`: the first brace is kept and the placeholder after it is still replaced |
| `TileUrl.TileUrlHasNoPlaceholder` | lib/android/src/main/java/com/airbnb/android/react/maps/AirMapUrlTile.java:106-111 | whatever the template, no `{x}`, `{y}` or `{z}` is left in the URL, and none is created by a replacement |
| `TileUrl.TileUrlSubstitutes` | lib/android/src/main/java/com/airbnb/android/react/maps/AirMapUrlTile.java:106-111 | for a template cut into pieces, each either brace-free text or a three-character `{c}` group, each `{x}`, `{y}` and `{z}` piece becomes the decimal text of x, y and zoom, and every other piece is kept; `TileUrlIsSubstituteAll` covers every template |
| `TileUrl.TileUrlOfFixedTemplate` | lib/android/src/main/java/com/airbnb/android/react/maps/AirMapUrlTile.java:106-111 | a template without placeholders is the URL itself |
| `TileUrl.TileUrlChars` | lib/android/src/main/java/com/airbnb/android/react/maps/AirMapUrlTile.java:106-111 | every character of the URL is a template character, a digit or `-` |
| `TileUrl.TileUrlExample` | lib/android/src/main/java/com/airbnb/android/react/maps/AirMapUrlTile.java:106-111 | `https://tile.example/{z}/{x}/{y}.png` for x 3, y 5, zoom 4 is `https://tile.example/4/3/5.png` |
| `TileUrl.GetUrl` | lib/android/src/main/java/com/airbnb/android/react/maps/AirMapUrlTile.java:113-134 | no URL exactly when an active maximum is below the zoom or an active minimum above it; otherwise the text is the template filled with the (possibly flipped) row, and it is a URL exactly when the parser accepts it, else the `AssertionError` outcome |
| `TileUrl.ZoomGateInclusive` | lib/android/src/main/java/com/airbnb/android/react/maps/AirMapUrlTile.java:121-127 | with positive whole-number bounds lo and hi, there is no URL exactly for zooms outside `[lo, hi]`; both ends are served |
| `TileUrl.ZoomGateUnbounded` | lib/android/src/main/java/com/airbnb/android/react/maps/AirMapUrlTile.java:121-127 | with both bounds 0 (or below) every zoom gets past the gate |
| `TileUrl.GateBeforeParse` | lib/android/src/main/java/com/airbnb/android/react/maps/AirMapUrlTile.java:119-133 | an excluded zoom gives no URL whatever the parser says; an admitted zoom gives a URL or the `AssertionError`, never "no URL" |
| `TileUrl.FlipOnlyChangesRow` | lib/android/src/main/java/com/airbnb/android/react/maps/AirMapUrlTile.java:115-119 | with `flipY` set the result is the unflipped result for the flipped row |
| `UrlTile.Wrapper.Url` | lib/android/src/main/java/com/airbnb/android/react/maps/AirMapUrlTile.java:113-134 | `getUrl` called with the wrapper's current template and the layer's current flip flag and zoom bounds |
| `UrlTile.UrlTileProvider.GetTileUrl` | lib/android/src/main/java/com/airbnb/android/react/maps/AirMapUrlTile.java:38-41 | returns `getUrl` for the wrapper's current template and the layer's current flip flag and bounds |
| `TileFetch.InputStream.Read` | lib/android/src/main/java/com/airbnb/android/react/maps/AirMapUrlTile.java:77 | a read throws at the failing call, reports the end after the last chunk, or copies the next chunk (at most 4096 bytes) into the array and returns its length |
| `TileFetch.ByteBuffer.Write` | lib/android/src/main/java/com/airbnb/android/react/maps/AirMapUrlTile.java:78 | appends the first n bytes of the array, or runs out of memory and leaves the buffer as it was |
| `TileFetch.ByteBuffer.ToByteArray` | lib/android/src/main/java/com/airbnb/android/react/maps/AirMapUrlTile.java:81 | returns exactly the bytes written so far |
| `TileFetch.InputStream.Close` | lib/android/src/main/java/com/airbnb/android/react/maps/AirMapUrlTile.java:86-90 | the stream is closed, and the call fails exactly when the stream's close is set to fail |
| `TileFetch.ByteBuffer.Close` | lib/android/src/main/java/com/airbnb/android/react/maps/AirMapUrlTile.java:91-95 | the buffer is closed |
| `TileFetch.Connection.Open` | lib/android/src/main/java/com/airbnb/android/react/maps/AirMapUrlTile.java:64 | the connection is made for the given URL |
| `TileFetch.Connection.Connect` | lib/android/src/main/java/com/airbnb/android/react/maps/AirMapUrlTile.java:71-72 | `connect` and `getInputStream` fail exactly when the server refuses; otherwise the connection is connected |
| `TileFetch.Connection.GetInputStream` | lib/android/src/main/java/com/airbnb/android/react/maps/AirMapUrlTile.java:72 | a connected connection hands out its response body |
| `TileFetch.Connection.AddRequestProperty` | lib/android/src/main/java/com/airbnb/android/react/maps/AirMapUrlTile.java:68 | the header is added to the request |
| `TileFetch.CopyBody` | lib/android/src/main/java/com/airbnb/android/react/maps/AirMapUrlTile.java:75-81 | the loop fails exactly when a read throws before the end or the body outgrows memory; otherwise the buffer holds the in-order concatenation of all chunks |
| `TileFetch.ConcatPrefixLength` | lib/android/src/main/java/com/airbnb/android/react/maps/AirMapUrlTile.java:75-81 | the bytes read so far are never more than the whole body, so running out of memory part-way means the whole body does not fit |
| `TileFetch.SplitConcat` | lib/android/src/main/java/com/airbnb/android/react/maps/AirMapUrlTile.java:75-81 | however a body is cut into chunks, the chunks join back into exactly that body |
| `TileFetch.BodyComesBackWhole` | lib/android/src/main/java/com/airbnb/android/react/maps/AirMapUrlTile.java:75-81 | a body of any length (0 bytes included), delivered in reads of one fixed size between 1 and 4096 bytes without failure, comes back unmodified when it fits in memory |
| `UrlTile.HttpTileProvider.ReadTileImage` | lib/android/src/main/java/com/airbnb/android/react/maps/AirMapUrlTile.java:56-97 | the result is `ExpectedRead`. Without a URL nothing is opened and no buffer is allocated. With one, a connection is opened for that URL; a connection that is not HTTPS ends in the uncaught cast failure with no header sent and nothing connected. Otherwise the connection gets exactly the request properties as headers. A stream that was obtained is closed on every path, and so is the buffer. A failing close does not change the result |
| `UrlTile.HttpTileProvider.GetTile` | lib/android/src/main/java/com/airbnb/android/react/maps/AirMapUrlTile.java:99-103 | `null` becomes `NO_TILE`; bytes become a tile with the provider's width, height and exactly those bytes; the `AssertionError` and the `ClassCastException` pass through |
| `UrlTile.Wrapper.SetUrlTemplate` | lib/android/src/main/java/com/airbnb/android/react/maps/AirMapUrlTile.java:28-30 | the wrapper's template is replaced |
| `UrlTile.UrlTileLayer.SetUrlTemplate` | lib/android/src/main/java/com/airbnb/android/react/maps/AirMapUrlTile.java:152-160 | the layer's template is replaced and, when a provider exists, so is the provider's; flip flag and bounds are untouched |
| `UrlTile.UrlTileLayer.SetMaximumZ` | lib/android/src/main/java/com/airbnb/android/react/maps/AirMapUrlTile.java:169-174 | the maximum zoom is replaced |
| `UrlTile.UrlTileLayer.SetMinimumZ` | lib/android/src/main/java/com/airbnb/android/react/maps/AirMapUrlTile.java:176-181 | the minimum zoom is replaced |
| `UrlTile.UrlTileLayer.SetFlipY` | lib/android/src/main/java/com/airbnb/android/react/maps/AirMapUrlTile.java:183-188 | the flip flag is replaced |
| `UrlTile.UrlTileLayer.SetRequestProperties` | lib/android/src/main/java/com/airbnb/android/react/maps/AirMapUrlTile.java:197-202 | the request properties are replaced |
| `UrlTile.UrlTileLayer.SetZIndex` | lib/android/src/main/java/com/airbnb/android/react/maps/AirMapUrlTile.java:162-167 | the z-index is stored |

## Left out

- Network I/O is not modelled. `openConnection`, `connect`, `getInputStream` and the HTTP exchange are stood for by the `Connection` and `InputStream` doubles. An `IOException` from `connect` or `getInputStream` is the single `refuses` flag. An `IOException` from `openConnection` itself is not modelled separately.
- Which URLs give an `HttpsURLConnection` is decided by the Java library from the URL's protocol. The model takes it as the `isHttps` flag of the connection.
- React Native bridge marshalling is not modelled. Request properties are a `map<string, string>`, so the `ClassCastException` of a non-string value cannot occur.
- `Log.e` is left out as a logging side effect.
- UrlTile.HttpTileProvider.ReadTileImage: assumes every caught exception has a non-null message. On Android `Log.e` throws `NullPointerException` for a null message. Such an exception would escape `readTileImage` from the catch or from the `finally` block, and the model does not capture that.
- The map overlay glue is left out: `createTileOverlayOptions`, `getTileOverlayOptions`, `addToMap`, `removeFromMap`, `getFeature`, and the `clearTileCache` and `setZIndex` calls on the overlay inside the setters. These only pass values to a map library whose code is not part of this model. The choice between the two providers by whether `requestProperties` is null is left out with them.
- `synchronized` and concurrent calls from the map renderer are not modelled. Each fetch is one sequential method call.
- `java.net.URL` parsing is the `validUrl` function given to the `Wrapper`, because its rules belong to the Java library.
- Floating point is not modelled. `minimumZ`, `maximumZ` and `zIndex` are `real`. NaN bounds are not modelled. The rounding of very large zoom values (beyond 2^24) when Java converts them to `float` is not modelled.
- A `null` URL template is not modelled, and neither is the `NullPointerException` it would cause; the layer starts with the empty template.
- `OutOfMemoryError` is modelled only for the growth of the byte buffer. The fixed 4096-byte array and the copy made by `toByteArray` cannot run out of memory in the model.
- `UrlTile.HttpTileProvider.ReadTileImage` returns the body as a sequence, not as a freshly allocated array.
- `TileFetch.Connection.AddRequestProperty` models adding a header to a request without one of that name. Java appends a second value, but the headers come from a map, so every name is added once.
- `Text.Replace` requires a non-empty target. Java's special case for an empty target is never reached: the targets are the fixed placeholders.
- `buffer.flush()` is left out: on a `ByteArrayOutputStream` it does nothing.
