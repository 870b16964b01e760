/** Extraction of a static (`gtfs`) feed: the `static_current` archive,
    optionally narrowed to a nested archive named by the URL fragment. */
module Gtfs {
  import opened Wrappers
  import opened WebUrl
  import opened Runtime
  import opened Types
  import opened Auth
  import opened Zip
  import opened Slots

  /** The slots a static feed may have. */
  const Candidates: seq<string> := ["static_current"]

  predicate EndsWith(s: string, suffix: string) {
    |suffix| <= |s| && s[|s| - |suffix|..] == suffix
  }

  /** The nested archive to extract: `url.href.split("#")[1]` when that is
      non-empty and ends in `.zip`. */
  function NestedTarget(url: Url, p: Platform): (r: Option<string>)
    ensures r.Some? ==> r.value != "" && EndsWith(r.value, ".zip")
  {
    var nested := SecondPiece(Href(url, p.formEncode), '#');
    if Truthy(nested) && EndsWith(nested.value, ".zip") then nested else None
  }

  /** The bytes to store: the named member of the downloaded archive, or the
      download itself. */
  function StaticData(url: Url, body: Bytes, p: Platform): (r: Result<Bytes, Exception>)
    ensures r.Success? <==>
              NestedTarget(url, p).None? || (p.unzip(body).Success? && NestedTarget(url, p).value in p.unzip(body).value)
    ensures r.Success? ==>
              r.value == if NestedTarget(url, p).None? then body else p.unzip(body).value[NestedTarget(url, p).value]
    ensures NestedTarget(url, p).Some? && p.unzip(body).Failure? ==> r == Failure(p.unzip(body).error)
    ensures NestedTarget(url, p).Some? && p.unzip(body).Success? && NestedTarget(url, p).value !in p.unzip(body).value ==>
              r == Failure(NotFound(NestedTarget(url, p).value))
  {
    match NestedTarget(url, p)
    case Some(target) => GetFromZip(Uint8Array(body), target, p.unzip)
    case None => Success(body)
  }

  /** The path a static slot is stored under, whether or not a nested archive
      was extracted. */
  function StaticPath(feed: Feed, key: string): string {
    feed.id + "/" + key + ".zip"
  }

  /** One iteration of the loop of `extractGtfs`. */
  function StaticAttempt(feed: Feed, key: string, storage: string, secrets: seq<Secret>, p: Platform): (a: Attempt)
    ensures a.outcome.Stored? <==> a.write.Some?
    ensures a.outcome.Stored? ==>
              && a.outcome.filePath == feed.id + "/" + key + ".zip"
              && a.write.value.path == storage + "/" + a.outcome.filePath
              && a.outcome.fileHash == p.sha256Hex(a.write.value.data)
  {
    match FetchSlot(feed, key, secrets, p)
    case Raised(e) => Caught(e)
    case Rejected(status, statusText) => NotOk(status, statusText)
    case Received(url, body) =>
      match StaticData(url, body, p)
      case Failure(e) => Caught(e)
      case Success(data) => Store(storage, StaticPath(feed, key), data, p)
  }

  function Attempter(feed: Feed, storage: string, secrets: seq<Secret>, p: Platform): string -> Attempt {
    key => StaticAttempt(feed, key, storage, secrets, p)
  }

  function Keys(feed: Feed): seq<string> {
    PopulatedSlots(feed.urls, Candidates)
  }

  /** The entry `extractGtfs` returns: the feed's id, and an outcome for
      `static_current` exactly when its URL is non-empty. */
  function Entry(feed: Feed, storage: string, secrets: seq<Secret>, p: Platform): (e: ManifestEntry)
    ensures e.id == feed.id
    ensures forall k :: k in e.urls <==> k == "static_current" && k in feed.urls && feed.urls[k] != ""
    ensures forall k | k in e.urls :: e.urls[k] == StaticAttempt(feed, k, storage, secrets, p).outcome
  {
    ManifestEntry(feed.id, Outcomes(Keys(feed), Attempter(feed, storage, secrets, p)))
  }

  /** The files `extractGtfs` writes. */
  function EntryWrites(feed: Feed, storage: string, secrets: seq<Secret>, p: Platform): seq<FileWrite> {
    Writes(Keys(feed), Attempter(feed, storage, secrets, p))
  }

  /** The body of the loop: the statements inside `try`, with each `throw`
      caught as `{error_text}` and `!response.ok` recorded as `{error_code, error_text}`. */
  method AttemptSlot(feed: Feed, key: string, storage: string, secrets: seq<Secret>, p: Platform) returns (a: Attempt)
    ensures a == StaticAttempt(feed, key, storage, secrets, p)
  {
    var parsed := p.parseUrl(SlotUrl(feed, key));
    if parsed.Failure? {
      return Caught(parsed.error);
    }
    var auth := GetAuth(feed, parsed.value, secrets, p);
    if auth.Failure? {
      return Caught(auth.error);
    }
    var url, headers := auth.value.url, auth.value.headers;
    var response := p.fetch(url, headers);
    if response.Thrown? {
      return Caught(response.error);
    }
    if !Ok(response.status) {
      return NotOk(response.status, response.statusText);
    }
    var fileData := response.body;
    var filePath := feed.id + "/" + key + ".zip";
    var nested := SecondPiece(Href(url, p.formEncode), '#');
    if Truthy(nested) && EndsWith(nested.value, ".zip") {
      var member := GetFromZip(Uint8Array(fileData), nested.value, p.unzip);
      if member.Failure? {
        return Caught(member.error);
      }
      fileData := member.value;
    }
    var fileHash := p.sha256Hex(fileData);
    var failure := p.writeFile(storage + "/" + filePath, fileData);
    if failure.Some? {
      return Caught(failure.value);
    }
    a := Attempt(Stored(filePath, fileHash), Some(FileWrite(storage + "/" + filePath, fileData)));
  }

  /** `extractGtfs`: the loop over the populated slots, assigning each
      outcome into the entry's `urls`. */
  method ExtractGtfs(feed: Feed, storage: string, secrets: seq<Secret>, p: Platform)
    returns (entry: ManifestEntry, written: seq<FileWrite>)
    ensures entry == Entry(feed, storage, secrets, p)
    ensures written == EntryWrites(feed, storage, secrets, p)
  {
    var keys := Keys(feed);
    ghost var attempt := Attempter(feed, storage, secrets, p);
    entry := ManifestEntry(feed.id, map[]);
    written := [];
    for i := 0 to |keys|
      invariant entry == ManifestEntry(feed.id, Outcomes(keys[..i], attempt))
      invariant written == Writes(keys[..i], attempt)
    {
      var key := keys[i];
      var a := AttemptSlot(feed, key, storage, secrets, p);
      assert a == attempt(key);
      LoopStep(keys, i, attempt);
      entry := entry.(urls := entry.urls[key := a.outcome]);
      written := written + if a.write.Some? then [a.write.value] else [];
    }
    assert keys[..|keys|] == keys;
  }

  // ---------------------------------------------------------------------------
  // Properties of one slot

  /** A response that is not ok records its status and status text and
      writes nothing. */
  lemma NotOkRecordsStatus(feed: Feed, key: string, storage: string, secrets: seq<Secret>, p: Platform,
                           u: Url, req: Request, status: int, statusText: string, body: Bytes)
    requires p.parseUrl(SlotUrl(feed, key)) == Success(u)
    requires GetAuth(feed, u, secrets, p) == Success(req)
    requires p.fetch(req.url, req.headers) == Response(status, statusText, body)
    requires !Ok(status)
    ensures StaticAttempt(feed, key, storage, secrets, p) == Attempt(Failed(Some(status), statusText), None)
  {
  }

  /** Every exception before the write (a bad slot URL, a failing
      authorization, a fetch that throws) is recorded by its message, with no
      status and no file. */
  lemma ExceptionsRecordMessage(feed: Feed, key: string, storage: string, secrets: seq<Secret>, p: Platform)
    ensures p.parseUrl(SlotUrl(feed, key)).Failure? ==>
              StaticAttempt(feed, key, storage, secrets, p) == Caught(p.parseUrl(SlotUrl(feed, key)).error)
    ensures p.parseUrl(SlotUrl(feed, key)).Success? ==>
              var auth := GetAuth(feed, p.parseUrl(SlotUrl(feed, key)).value, secrets, p);
              && (auth.Failure? ==> StaticAttempt(feed, key, storage, secrets, p) == Caught(auth.error))
              && (auth.Success? && p.fetch(auth.value.url, auth.value.headers).Thrown? ==>
                    StaticAttempt(feed, key, storage, secrets, p)
                    == Caught(p.fetch(auth.value.url, auth.value.headers).error))
  {
  }

  /** After an ok response the stored bytes, and so the hash, are those of the
      nested member when the resolved URL names one, and otherwise those of the
      download; a missing member fails the slot with the not-found message. */
  lemma StoredBytes(feed: Feed, key: string, storage: string, secrets: seq<Secret>, p: Platform,
                    u: Url, req: Request, status: int, statusText: string, body: Bytes)
    requires p.parseUrl(SlotUrl(feed, key)) == Success(u)
    requires GetAuth(feed, u, secrets, p) == Success(req)
    requires p.fetch(req.url, req.headers) == Response(status, statusText, body)
    requires Ok(status)
    ensures NestedTarget(req.url, p).None? ==>
              StaticAttempt(feed, key, storage, secrets, p) == Store(storage, StaticPath(feed, key), body, p)
    ensures NestedTarget(req.url, p).Some? && p.unzip(body).Success? ==>
              var target, files := NestedTarget(req.url, p).value, p.unzip(body).value;
              StaticAttempt(feed, key, storage, secrets, p)
              == if target in files then Store(storage, StaticPath(feed, key), files[target], p)
                 else Caught(NotFound(target))
    ensures NestedTarget(req.url, p).Some? && p.unzip(body).Failure? ==>
              StaticAttempt(feed, key, storage, secrets, p) == Caught(p.unzip(body).error)
  {
  }

  /** The nested target is the fragment of the resolved URL up to its first
      `#`, when that ends in `.zip`. */
  lemma NestedTargetIsFragment(url: Url, p: Platform)
    requires '#' !in url.prefix + url.pathname + Search(url.query, p.formEncode)
    ensures url.fragment.None? ==> NestedTarget(url, p).None?
    ensures url.fragment.Some? ==>
              var piece := Split(url.fragment.value, '#')[0];
              NestedTarget(url, p) == if piece != "" && EndsWith(piece, ".zip") then Some(piece) else None
  {
    HashPieceIsFragment(url, p.formEncode);
  }

  /** A fragment without a further `#` that ends in `.zip` names the member
      to extract, as `https://ex.org/outer.zip#inner/data.zip` names
      `inner/data.zip`. */
  lemma FragmentNamesMember(url: Url, member: string, p: Platform)
    requires '#' !in url.prefix + url.pathname + Search(url.query, p.formEncode)
    requires url.fragment == Some(member) && '#' !in member && EndsWith(member, ".zip")
    ensures NestedTarget(url, p) == Some(member)
  {
    NestedTargetIsFragment(url, p);
    SplitWithoutSeparator(member, '#');
  }

  // ---------------------------------------------------------------------------
  // Properties of the entry

  /** Every stored outcome's hash is the digest of exactly the bytes written
      under its path, and every written file belongs to a stored outcome. */
  lemma HashesMatchWrites(feed: Feed, storage: string, secrets: seq<Secret>, p: Platform)
    ensures var e, ws := Entry(feed, storage, secrets, p), EntryWrites(feed, storage, secrets, p);
      && (forall k | k in e.urls && e.urls[k].Stored? ::
            FileWrite(storage + "/" + e.urls[k].filePath, StaticAttempt(feed, k, storage, secrets, p).write.value.data) in ws
            && e.urls[k].fileHash == p.sha256Hex(StaticAttempt(feed, k, storage, secrets, p).write.value.data))
      && (forall w | w in ws :: exists k | k in e.urls ::
            e.urls[k] == Stored(StaticPath(feed, k), p.sha256Hex(w.data)) && w.path == storage + "/" + StaticPath(feed, k))
  {
    var attempt := Attempter(feed, storage, secrets, p);
    var keys := Keys(feed);
    forall k | k in keys ensures attempt(k) == StaticAttempt(feed, k, storage, secrets, p) { }
  }

  /** Every file written lies at `<storage>/<feed id>/<slot>.zip` for one of
      the feed's populated slots. */
  lemma WrittenPaths(feed: Feed, storage: string, secrets: seq<Secret>, p: Platform)
    ensures forall w | w in EntryWrites(feed, storage, secrets, p) ::
              exists k | k in Keys(feed) :: w.path == storage + "/" + StaticPath(feed, k)
  {
    var attempt := Attempter(feed, storage, secrets, p);
    forall k | k in Keys(feed) ensures attempt(k) == StaticAttempt(feed, k, storage, secrets, p) { }
  }
}
