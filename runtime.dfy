/** The JavaScript runtime as the extraction pipeline sees it: bytes, thrown
    values, truthiness, `Array.prototype.find`, and the foreign calls (URL
    parsing, percent-encoding, `Headers.set`, `fetch`, unzip, GTFS-RT decoding,
    SHA-256, `Bun.write`), which are fields of a `Platform` record so that every
    property is proved for every behaviour of them. */
module Runtime {
  import opened Wrappers
  import opened WebUrl

  newtype byte = x: int | 0 <= x < 256
  type Bytes = seq<byte>

  /** A thrown value, reduced to its `message` property (None when it has none). */
  datatype Exception = Exception(message: Option<string>)

  /** What a `catch (error)` block records: `error?.message ?? "Error"`. */
  function ErrorText(e: Exception): string {
    e.message.GetOr("Error")
  }

  /** JavaScript truthiness of a string that may be `undefined`. */
  predicate Truthy(s: Option<string>) {
    s.Some? && s.value != ""
  }

  /** A `Headers` object: header name to value. */
  type Headers = map<string, string>

  /** The outcome of `await fetch(url, {headers})`: a response, or a rejection. */
  datatype Exchange =
    | Response(status: int, statusText: string, body: Bytes)
    | Thrown(error: Exception)

  /** `response.ok`: the status is in the range 200 to 299 (Fetch Standard). */
  predicate Ok(status: int) {
    200 <= status <= 299
  }

  /** The foreign calls the pipeline makes.
      - parseUrl: `new URL(text)`; fails with a TypeError.
      - encodeComponent: `encodeURIComponent`; fails with a URIError on lone surrogates.
      - formEncode: application/x-www-form-urlencoded encoding of one query name or value.
      - setHeader: the validation and normalisation `Headers.set(name, value)` applies,
        giving the stored (name, value) pair or the TypeError it throws.
      - fetch: the network, as a function of the request.
      - unzip: `fflate.unzipSync`, archive member name to member bytes; fails on a bad archive.
      - decodeToJson: `FeedMessage.decode(bytes).toJSON()` then `JSON.stringify`, as the
        UTF-8 bytes that `Bun.write` and the hasher see; fails when decoding throws.
      - sha256Hex: `new Bun.CryptoHasher("sha256").update(data).digest("hex")`.
      - writeFile: `Bun.write(path, data)`; None when it succeeds. */
  datatype Platform = Platform(
    parseUrl: string -> Result<Url, Exception>,
    encodeComponent: string -> Result<string, Exception>,
    formEncode: string -> string,
    setHeader: (string, string) -> Result<(string, string), Exception>,
    fetch: (Url, Headers) -> Exchange,
    unzip: Bytes -> Result<map<string, Bytes>, Exception>,
    decodeToJson: Bytes -> Result<Bytes, Exception>,
    sha256Hex: Bytes -> string,
    writeFile: (string, Bytes) -> Option<Exception>
  )

  /** `Array.prototype.findIndex`: the first index whose element satisfies `p`. */
  function FindIndex<T>(s: seq<T>, p: T -> bool): (r: Option<nat>)
    ensures r.Some? ==> r.value < |s| && p(s[r.value])
    ensures r.Some? ==> forall j | 0 <= j < r.value :: !p(s[j])
    ensures r.None? <==> forall j | 0 <= j < |s| :: !p(s[j])
  {
    if s == [] then None
    else if p(s[0]) then Some(0)
    else
      match FindIndex(s[1..], p)
      case None => None
      case Some(i) => Some(i + 1)
  }
}
