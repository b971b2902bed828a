/**
 * The transport seen by `readTileImage`: a connection that may refuse, an
 * input stream that hands out the response body in chunks of at most
 * `BUFFER_SIZE` bytes and may fail on any read, and the growable
 * `ByteArrayOutputStream` the chunks are collected in. `ExpectedRead` says
 * what a fetch must return for a given transport; the read loop itself is
 * `UrlTile.HttpTileProvider.ReadTileImage`.
 */
module TileFetch {
  import opened Wrappers
  import opened TileUrl

  type Byte = bv8

  /** Size of the read buffer and so the largest chunk one read returns. */
  const BUFFER_SIZE: nat := 4 * 1024

  /** The bytes of the chunks, in order. */
  function Concat(chunks: seq<seq<Byte>>): seq<Byte>
  {
    if chunks == [] then [] else Concat(chunks[..|chunks| - 1]) + chunks[|chunks| - 1]
  }

  predicate ChunksFit(chunks: seq<seq<Byte>>)
  {
    forall i :: 0 <= i < |chunks| ==> |chunks[i]| <= BUFFER_SIZE
  }

  /** `in.read` returns a count, `-1` at the end of the body, or throws `IOException`. */
  datatype ReadOutcome = Count(n: nat) | EndOfStream | ReadFailed

  /** The response body. `failsAt` is the read call, counted from 0, that throws. */
  class InputStream {
    const chunks: seq<seq<Byte>>
    const failsAt: Option<nat>
    const closeFails: bool
    var delivered: nat
    var closed: bool

    ghost predicate Valid()
      reads this
    {
      ChunksFit(chunks) && delivered <= |chunks|
    }

    constructor (chunks: seq<seq<Byte>>, failsAt: Option<nat>, closeFails: bool)
      requires ChunksFit(chunks)
      ensures Valid() && delivered == 0 && !closed
      ensures this.chunks == chunks && this.failsAt == failsAt && this.closeFails == closeFails
    {
      this.chunks := chunks;
      this.failsAt := failsAt;
      this.closeFails := closeFails;
      delivered := 0;
      closed := false;
    }

    /** `read(data, 0, BUFFER_SIZE)`. */
    method Read(data: array<Byte>) returns (r: ReadOutcome)
      requires Valid() && !closed && data.Length == BUFFER_SIZE
      modifies this`delivered, data
      ensures Valid()
      ensures failsAt == Some(old(delivered)) ==> r == ReadFailed && delivered == old(delivered)
      ensures failsAt != Some(old(delivered)) && old(delivered) == |chunks| ==> r == EndOfStream && delivered == old(delivered)
      ensures failsAt != Some(old(delivered)) && old(delivered) < |chunks| ==>
        r == Count(|chunks[old(delivered)]|) && delivered == old(delivered) + 1 && data[..r.n] == chunks[old(delivered)]
    {
      if failsAt == Some(delivered) {
        r := ReadFailed;
      } else if delivered == |chunks| {
        r := EndOfStream;
      } else {
        var c := chunks[delivered];
        forall i | 0 <= i < |c| {
          data[i] := c[i];
        }
        r := Count(|c|);
        delivered := delivered + 1;
      }
    }

    /** `close()`; `failed` stands for the `IOException` it may throw. */
    method Close() returns (failed: bool)
      modifies this`closed
      ensures closed && failed == closeFails
    {
      closed := true;
      failed := closeFails;
    }
  }

  /**
   * `ByteArrayOutputStream`. Growing it beyond `capacity` bytes stands for the
   * `OutOfMemoryError` the source catches.
   */
  class ByteBuffer {
    const capacity: nat
    var bytes: seq<Byte>
    var closed: bool

    constructor (capacity: nat)
      ensures this.capacity == capacity && bytes == [] && !closed
    {
      this.capacity := capacity;
      bytes := [];
      closed := false;
    }

    /** `write(data, 0, n)`. */
    method Write(data: array<Byte>, n: nat) returns (outOfMemory: bool)
      requires n <= data.Length
      modifies this`bytes
      ensures outOfMemory <==> |old(bytes)| + n > capacity
      ensures bytes == if outOfMemory then old(bytes) else old(bytes) + data[..n]
    {
      outOfMemory := |bytes| + n > capacity;
      if !outOfMemory {
        bytes := bytes + data[..n];
      }
    }

    /** `toByteArray()`: a copy of what was written. */
    method ToByteArray() returns (a: seq<Byte>)
      ensures a == bytes
    {
      a := bytes;
    }

    method Close()
      modifies this`closed
      ensures closed
    {
      closed := true;
    }
  }

  /**
   * The connection `url.openConnection()` returns, as far as the fetch uses
   * it. `isHttps` says whether it is an `HttpsURLConnection`; the source casts
   * it to one without a check.
   */
  class Connection {
    const isHttps: bool
    const refuses: bool
    const body: InputStream
    var url: Option<string>
    var headers: map<string, string>
    var connected: bool

    constructor (isHttps: bool, refuses: bool, body: InputStream)
      ensures this.isHttps == isHttps && this.refuses == refuses && this.body == body
      ensures url == None && headers == map[] && !connected
    {
      this.isHttps := isHttps;
      this.refuses := refuses;
      this.body := body;
      url := None;
      headers := map[];
      connected := false;
    }

    /** `url.openConnection()`. */
    method Open(target: string)
      modifies this`url
      ensures url == Some(target)
    {
      url := Some(target);
    }

    /** `addRequestProperty(key, value)`. */
    method AddRequestProperty(key: string, value: string)
      modifies this`headers
      ensures headers == old(headers)[key := value]
    {
      headers := headers[key := value];
    }

    /** `connect()` and `getInputStream()`; `failed` stands for their `IOException`. */
    method Connect() returns (failed: bool)
      modifies this`connected
      ensures failed == refuses && connected == !refuses
    {
      failed := refuses;
      connected := !refuses;
    }

    method GetInputStream() returns (s: InputStream)
      requires connected
      ensures s == body
    {
      s := body;
    }
  }

  /**
   * The read loop of `readTileImage`: read chunks of at most `BUFFER_SIZE`
   * bytes into one reused array and append each to the buffer, until a read
   * reports the end of the body, a read throws, or the buffer runs out of
   * memory. On success the buffer holds exactly the whole body.
   */
  method CopyBody(input: InputStream, buffer: ByteBuffer) returns (failed: bool)
    requires input.Valid() && input.delivered == 0 && !input.closed
    requires buffer.bytes == []
    modifies input`delivered, buffer`bytes
    ensures input.Valid()
    ensures failed <==> FailsBeforeEnd(input.chunks, input.failsAt) || |Concat(input.chunks)| > buffer.capacity
    ensures !failed ==> buffer.bytes == Concat(input.chunks)
  {
    var data := new Byte[BUFFER_SIZE];
    failed := false;
    while true
      invariant input.Valid()
      invariant buffer.bytes == Concat(input.chunks[..input.delivered])
      invariant |buffer.bytes| <= buffer.capacity
      invariant input.failsAt.Some? ==> input.failsAt.value >= input.delivered
      decreases |input.chunks| - input.delivered
    {
      var r := input.Read(data);
      if r.ReadFailed? {
        failed := true;
        break;
      }
      if r.EndOfStream? {
        assert input.chunks[..input.delivered] == input.chunks;
        break;
      }
      ConcatStep(input.chunks, input.delivered - 1);
      var outOfMemory := buffer.Write(data, r.n);
      if outOfMemory {
        ConcatPrefixLength(input.chunks, input.delivered);
        failed := true;
        break;
      }
    }
  }

  /**
   * What `readTileImage` ends in: a byte array, `null`, the `AssertionError`
   * of `getUrl`, or the `ClassCastException` of a connection that is not an
   * `HttpsURLConnection`. Neither exception is caught by the method.
   */
  datatype ImageRead = Image(bytes: seq<Byte>) | NoImage | ConfigError(url: string) | CastFailed(url: string)

  /** What `getTile` ends in: a `Tile`, `NO_TILE`, or one of the same two exceptions. */
  datatype TileResult =
    | TileOf(width: int, height: int, data: seq<Byte>)
    | NoTile
    | TemplateError(url: string)
    | CastError(url: string)

  /** A read throws before the one that would report the end of the body. */
  predicate FailsBeforeEnd(chunks: seq<seq<Byte>>, failsAt: Option<nat>)
  {
    failsAt.Some? && failsAt.value <= |chunks|
  }

  /**
   * The result a fetch must produce: nothing without a URL, the configuration
   * error of a malformed URL, the cast failure of a connection that is not
   * HTTPS, nothing after a refused connection, a failed read or a body too
   * large for memory, and otherwise the whole body.
   */
  function ExpectedRead(u: UrlOutcome, isHttps: bool, refuses: bool, chunks: seq<seq<Byte>>,
                        failsAt: Option<nat>, capacity: nat): ImageRead
  {
    match u
    case NoUrl => NoImage
    case MalformedUrl(s) => ConfigError(s)
    case Url(s) =>
      if !isHttps then CastFailed(s)
      else if refuses || FailsBeforeEnd(chunks, failsAt) || |Concat(chunks)| > capacity then NoImage
      else Image(Concat(chunks))
  }

  /** `getTile`'s mapping of the read result. */
  function AsTile(image: ImageRead, width: int, height: int): TileResult
  {
    match image
    case Image(b) => TileOf(width, height, b)
    case NoImage => NoTile
    case ConfigError(s) => TemplateError(s)
    case CastFailed(s) => CastError(s)
  }

  // ---------------------------------------------------------------------
  // Properties of the collected body

  lemma ConcatStep(chunks: seq<seq<Byte>>, i: nat)
    requires i < |chunks|
    ensures Concat(chunks[..i + 1]) == Concat(chunks[..i]) + chunks[i]
  {
    assert chunks[..i + 1][..i] == chunks[..i];
  }

  /** The bytes of a prefix of the chunks are never more than those of all chunks. */
  lemma {:induction false} ConcatPrefixLength(chunks: seq<seq<Byte>>, i: nat)
    requires i <= |chunks|
    ensures |Concat(chunks[..i])| <= |Concat(chunks)|
    decreases |chunks| - i
  {
    if i < |chunks| {
      ConcatStep(chunks, i);
      ConcatPrefixLength(chunks, i + 1);
    } else {
      assert chunks[..i] == chunks;
    }
  }

  lemma {:induction false} ConcatCons(first: seq<Byte>, rest: seq<seq<Byte>>)
    ensures Concat([first] + rest) == first + Concat(rest)
    decreases |rest|
  {
    if rest != [] {
      var all := [first] + rest;
      assert all[..|all| - 1] == [first] + rest[..|rest| - 1];
      ConcatCons(first, rest[..|rest| - 1]);
    } else {
      assert [first] + rest == [first];
      assert [first][..0] == [];
    }
  }

  /** A body cut into chunks of `size` bytes, the last one possibly shorter. */
  function Split(body: seq<Byte>, size: nat): (chunks: seq<seq<Byte>>)
    requires size > 0
    decreases |body|
  {
    if body == [] then []
    else if |body| <= size then [body]
    else [body[..size]] + Split(body[size..], size)
  }

  /**
   * Chunk boundaries do not matter: however the body is cut, its chunks join
   * back into exactly the body.
   */
  lemma {:induction false} SplitConcat(body: seq<Byte>, size: nat)
    requires size > 0
    ensures Concat(Split(body, size)) == body
    decreases |body|
  {
    if body == [] {
    } else if |body| <= size {
      assert Concat([body]) == Concat([]) + body;
    } else {
      SplitConcat(body[size..], size);
      ConcatCons(body[..size], Split(body[size..], size));
      assert body[..size] + body[size..] == body;
    }
  }

  lemma {:induction false} SplitFits(body: seq<Byte>, size: nat)
    requires 0 < size <= BUFFER_SIZE
    ensures ChunksFit(Split(body, size))
    decreases |body|
  {
    if |body| > size {
      SplitFits(body[size..], size);
      var rest := Split(body[size..], size);
      assert Split(body, size) == [body[..size]] + rest;
      forall i | 0 <= i < |Split(body, size)| ensures |Split(body, size)[i]| <= BUFFER_SIZE {
        if i > 0 {
          assert Split(body, size)[i] == rest[i - 1];
        }
      }
    }
  }

  /**
   * A response body of any length, delivered in reads of any size up to
   * `BUFFER_SIZE` without failure, comes back unmodified when it fits in
   * memory; an empty body gives an empty array.
   */
  lemma BodyComesBackWhole(url: string, body: seq<Byte>, size: nat, capacity: nat)
    requires 0 < size <= BUFFER_SIZE && |body| <= capacity
    ensures ChunksFit(Split(body, size))
    ensures ExpectedRead(Url(url), true, false, Split(body, size), None, capacity) == Image(body)
  {
    SplitFits(body, size);
    SplitConcat(body, size);
  }
}
