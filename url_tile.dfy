/**
 * The objects of `AirMapUrlTile`: the layer with its configuration setters,
 * the inner `Wrapper` that owns the URL template, and the two tile providers
 * built on it, one that hands the map a URL and one that fetches the tile
 * bytes itself with the caller's request headers.
 */
module UrlTile {
  import opened Wrappers
  import opened JavaInt
  import opened TileUrl
  import opened TileFetch

  /** The tile layer (`AirMapUrlTile`) and the configuration its setters change. */
  class UrlTileLayer {
    var urlTemplate: string
    var zIndex: real
    var maximumZ: real
    var minimumZ: real
    var flipY: bool
    var requestProperties: Option<map<string, string>>
    var tileProvider: Wrapper?

    /** Java's field defaults: no bounds, no flip, no headers, no provider yet. */
    constructor ()
      ensures urlTemplate == "" && zIndex == 0.0 && maximumZ == 0.0 && minimumZ == 0.0
      ensures !flipY && requestProperties == None && tileProvider == null
    {
      urlTemplate := "";
      zIndex := 0.0;
      maximumZ := 0.0;
      minimumZ := 0.0;
      flipY := false;
      requestProperties := None;
      tileProvider := null;
    }

    function Policy(): ZoomPolicy
      reads this
    {
      ZoomPolicy(minimumZ, maximumZ)
    }

    /** The template goes to the layer and, once it exists, to its provider. */
    method SetUrlTemplate(template: string)
      modifies this`urlTemplate, tileProvider
      ensures urlTemplate == template && tileProvider == old(tileProvider)
      ensures tileProvider != null ==> tileProvider.urlTemplate == template
      ensures flipY == old(flipY) && Policy() == old(Policy())
    {
      urlTemplate := template;
      if tileProvider != null {
        tileProvider.SetUrlTemplate(template);
      }
    }

    method SetZIndex(z: real)
      modifies this`zIndex
      ensures zIndex == z
    {
      zIndex := z;
    }

    method SetMaximumZ(z: real)
      modifies this`maximumZ
      ensures maximumZ == z
    {
      maximumZ := z;
    }

    method SetMinimumZ(z: real)
      modifies this`minimumZ
      ensures minimumZ == z
    {
      minimumZ := z;
    }

    method SetFlipY(flip: bool)
      modifies this`flipY
      ensures flipY == flip
    {
      flipY := flip;
    }

    method SetRequestProperties(properties: Option<map<string, string>>)
      modifies this`requestProperties
      ensures requestProperties == properties
    {
      requestProperties := properties;
    }
  }

  /**
   * `AirMapUrlTile.Wrapper`. It reads the flip flag and the zoom bounds of its
   * layer at every call, so a setter takes effect on the next tile. `validUrl`
   * stands for what `java.net.URL` accepts.
   */
  class Wrapper {
    const layer: UrlTileLayer
    const validUrl: string -> bool
    var urlTemplate: string

    constructor (layer: UrlTileLayer, urlTemplate: string, validUrl: string -> bool)
      ensures this.layer == layer && this.urlTemplate == urlTemplate && this.validUrl == validUrl
    {
      this.layer := layer;
      this.urlTemplate := urlTemplate;
      this.validUrl := validUrl;
    }

    method SetUrlTemplate(template: string)
      modifies this`urlTemplate
      ensures urlTemplate == template
    {
      urlTemplate := template;
    }

    /** `getUrl(x, y, zoom, urlTemplate)` against the current configuration. */
    function Url(x: Int32, y: Int32, zoom: Int32): UrlOutcome
      reads this, layer
    {
      GetUrl(x, y, zoom, urlTemplate, layer.flipY, layer.Policy(), validUrl)
    }
  }

  /** `Wrapper.AIRMapUrlTileProvider`: the map fetches the URL itself. */
  class UrlTileProvider {
    const wrapper: Wrapper
    const width: int
    const height: int

    constructor (wrapper: Wrapper, width: int, height: int)
      ensures this.wrapper == wrapper && this.width == width && this.height == height
    {
      this.wrapper := wrapper;
      this.width := width;
      this.height := height;
    }

    /** `getTileUrl` delegates to `getUrl` with the wrapper's current template. */
    method GetTileUrl(x: Int32, y: Int32, zoom: Int32) returns (u: UrlOutcome)
      ensures u == GetUrl(x, y, zoom, wrapper.urlTemplate, wrapper.layer.flipY,
                          wrapper.layer.Policy(), wrapper.validUrl)
    {
      u := wrapper.Url(x, y, zoom);
    }
  }

  /** `Wrapper.AIRMapUrlTile`: fetches the bytes itself, sending the request headers. */
  class HttpTileProvider {
    const wrapper: Wrapper
    const width: int
    const height: int
    const requestProperties: map<string, string>

    constructor (wrapper: Wrapper, width: int, height: int, requestProperties: map<string, string>)
      ensures this.wrapper == wrapper && this.width == width && this.height == height
      ensures this.requestProperties == requestProperties
    {
      this.wrapper := wrapper;
      this.width := width;
      this.height := height;
      this.requestProperties := requestProperties;
    }

    /** A connection the transport hands out for one fetch: unused so far. */
    ghost predicate Unused(conn: Connection)
      reads conn, conn.body
    {
      conn.body.Valid() && conn.body.delivered == 0 && !conn.body.closed &&
      conn.url == None && conn.headers == map[] && !conn.connected
    }

    /**
     * `readTileImage`. `conn` is the connection `url.openConnection()` would
     * return and `heapBytes` the memory the byte buffer may grow to.
     * `bufferOpened` and `bufferClosed` record the fate of the byte buffer.
     */
    method ReadTileImage(x: Int32, y: Int32, zoom: Int32, conn: Connection, heapBytes: nat)
      returns (image: ImageRead, ghost bufferOpened: bool, ghost bufferClosed: bool)
      requires Unused(conn)
      modifies conn, conn.body
      ensures image == ExpectedRead(wrapper.Url(x, y, zoom), conn.isHttps, conn.refuses, conn.body.chunks,
                                    conn.body.failsAt, heapBytes)
      ensures !wrapper.Url(x, y, zoom).Url? ==> unchanged(conn, conn.body) && !bufferOpened
      ensures wrapper.Url(x, y, zoom).Url? ==> conn.url == Some(wrapper.Url(x, y, zoom).text)
      ensures wrapper.Url(x, y, zoom).Url? ==>
        conn.headers == if conn.isHttps then requestProperties else map[]
      ensures conn.connected == (wrapper.Url(x, y, zoom).Url? && conn.isHttps && !conn.refuses)
      ensures conn.connected ==> conn.body.closed
      ensures bufferOpened == conn.connected && (bufferOpened ==> bufferClosed)
    {
      bufferOpened, bufferClosed := false, false;
      var u := wrapper.Url(x, y, zoom);
      if u.NoUrl? {
        return NoImage, bufferOpened, bufferClosed;
      }
      if u.MalformedUrl? {
        // The AssertionError of getUrl leaves before anything is opened.
        return ConfigError(u.text), bufferOpened, bufferClosed;
      }
      conn.Open(u.text);
      if !conn.isHttps {
        // The cast to HttpsURLConnection throws; no stream exists yet to close.
        return CastFailed(u.text), bufferOpened, bufferClosed;
      }
      var pending := requestProperties.Keys;
      while pending != {}
        invariant pending <= requestProperties.Keys
        invariant conn.headers == map k | k in requestProperties.Keys - pending :: requestProperties[k]
        invariant conn.url == Some(u.text) && !conn.connected
        invariant unchanged(conn.body)
        decreases pending
      {
        var key :| key in pending;
        conn.AddRequestProperty(key, requestProperties[key]);
        pending := pending - {key};
      }
      var refused := conn.Connect();
      if refused {
        return NoImage, bufferOpened, bufferClosed;
      }
      var input := conn.GetInputStream();
      var buffer := new ByteBuffer(heapBytes);
      bufferOpened := true;
      var failed := CopyBody(input, buffer);
      if failed {
        image := NoImage;
      } else {
        var bytes := buffer.ToByteArray();
        image := Image(bytes);
      }
      // finally: both streams are closed; a failing close is only logged.
      var closeFailed := input.Close();
      buffer.Close();
      bufferClosed := buffer.closed;
    }

    /** `getTile`: `null` from the read becomes `NO_TILE`. */
    method GetTile(x: Int32, y: Int32, zoom: Int32, conn: Connection, heapBytes: nat)
      returns (tile: TileResult)
      requires Unused(conn)
      modifies conn, conn.body
      ensures tile == AsTile(ExpectedRead(wrapper.Url(x, y, zoom), conn.isHttps, conn.refuses, conn.body.chunks,
                                          conn.body.failsAt, heapBytes), width, height)
      ensures conn.connected ==> conn.body.closed
    {
      var image: ImageRead;
      ghost var bufferOpened, bufferClosed;
      image, bufferOpened, bufferClosed := ReadTileImage(x, y, zoom, conn, heapBytes);
      tile := match image
        case Image(b) => TileOf(width, height, b)
        case NoImage => NoTile
        case ConfigError(s) => TemplateError(s)
        case CastFailed(s) => CastError(s);
    }
  }
}
