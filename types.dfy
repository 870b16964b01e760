/** The registry document (DMFR, schema version 0.6.0) as far as extraction
    reads it, the secrets document and the manifest. Feed and authorization
    fields the pipeline never reads (licence, languages, tags, ...) are not
    represented. Operators keep a few descriptive fields (name, short name,
    website), which `getOperators` passes through unchanged; the others, such
    as `tags`, are left out because nothing reads them. */
module Types {
  import opened Wrappers

  /** `authorization.type`. A registry may name a scheme outside the schema's
      enumeration; extraction then treats the feed as having no authorization. */
  datatype AuthType =
    | BasicAuth
    | Header
    | PathSegment
    | QueryParam
    | ReplaceUrl
    | Unrecognised(name: string)

  datatype Authorization = Authorization(authType: AuthType, paramName: Option<string>)

  datatype AssociatedFeed = AssociatedFeed(feedOnestopId: Option<string>, gtfsAgencyId: Option<string>)

  datatype Operator = Operator(
    onestopId: string,
    name: string,
    shortName: Option<string>,
    website: Option<string>,
    supersedesIds: Option<seq<string>>,
    associatedFeeds: Option<seq<AssociatedFeed>>
  )

  /** A feed. `urls` holds the string-valued URL slots that are present
      (`static_current`, `realtime_alerts`, ...); `spec` is compared as text. */
  datatype Feed = Feed(
    id: string,
    spec: string,
    urls: map<string, string>,
    authorization: Option<Authorization>,
    supersedesIds: Option<seq<string>>,
    operators: Option<seq<Operator>>
  )

  datatype Dmfr = Dmfr(feeds: Option<seq<Feed>>, operators: Option<seq<Operator>>)

  datatype Secret = Secret(feedId: string, feedSecret: string)

  /** One slot's outcome in the manifest: `{file_path, file_hash}` after a
      successful store, or `{error_code?, error_text}` after a failure. */
  datatype Outcome =
    | Stored(filePath: string, fileHash: string)
    | Failed(errorCode: Option<int>, errorText: string)

  datatype ManifestEntry = ManifestEntry(id: string, urls: map<string, Outcome>)

  /** `new Date()`, read once per run; opaque to the pipeline. */
  type Timestamp = int

  datatype Manifest = Manifest(feeds: seq<ManifestEntry>, extractedAt: Timestamp)
}
