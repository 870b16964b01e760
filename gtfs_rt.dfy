/** Extraction of a realtime (`gtfs-rt`) feed: up to three protobuf slots,
    each stored raw or decoded to JSON. */
module GtfsRt {
  import opened Wrappers
  import opened WebUrl
  import opened Runtime
  import opened Types
  import opened Auth
  import opened Slots
  import opened SeqFacts

  /** The slots a realtime feed may have, in the order they are fetched. */
  const Candidates: seq<string> := ["realtime_alerts", "realtime_trip_updates", "realtime_vehicle_positions"]

  /** `if (parse)` on an optional boolean: only an explicit `true` decodes. */
  predicate Decoding(parse: Option<bool>) {
    parse == Some(true)
  }

  /** The path a realtime slot is stored under. */
  function RealtimePath(feed: Feed, key: string, parse: Option<bool>): string {
    feed.id + "/" + key + (if Decoding(parse) then ".json" else ".pb")
  }

  /** One iteration of the loop of `extractGtfsRt`. The path ends in `.json`
      exactly when decoding, and in `.pb` otherwise. */
  function RealtimeAttempt(feed: Feed, key: string, storage: string, secrets: seq<Secret>, parse: Option<bool>, p: Platform): (a: Attempt)
    ensures a.outcome.Stored? <==> a.write.Some?
    ensures a.outcome.Stored? ==>
              && a.outcome.filePath == feed.id + "/" + key + (if Decoding(parse) then ".json" else ".pb")
              && a.write.value.path == storage + "/" + a.outcome.filePath
              && a.outcome.fileHash == p.sha256Hex(a.write.value.data)
  {
    match FetchSlot(feed, key, secrets, p)
    case Raised(e) => Caught(e)
    case Rejected(status, statusText) => NotOk(status, statusText)
    case Received(_, body) =>
      if Decoding(parse) then
        match p.decodeToJson(body)
        case Failure(e) => Caught(e)
        case Success(json) => Store(storage, feed.id + "/" + key + ".json", json, p)
      else
        Store(storage, feed.id + "/" + key + ".pb", body, p)
  }

  function Attempter(feed: Feed, storage: string, secrets: seq<Secret>, parse: Option<bool>, p: Platform): string -> Attempt {
    key => RealtimeAttempt(feed, key, storage, secrets, parse, p)
  }

  function Keys(feed: Feed): seq<string> {
    PopulatedSlots(feed.urls, Candidates)
  }

  /** The entry `extractGtfsRt` returns: the feed's id, and one outcome for
      each realtime slot whose URL is non-empty. */
  function Entry(feed: Feed, storage: string, secrets: seq<Secret>, parse: Option<bool>, p: Platform): (e: ManifestEntry)
    ensures e.id == feed.id
    ensures forall k :: k in e.urls <==> k in Candidates && k in feed.urls && feed.urls[k] != ""
    ensures forall k | k in e.urls :: e.urls[k] == RealtimeAttempt(feed, k, storage, secrets, parse, p).outcome
  {
    ManifestEntry(feed.id, Outcomes(Keys(feed), Attempter(feed, storage, secrets, parse, p)))
  }

  /** The files `extractGtfsRt` writes. */
  function EntryWrites(feed: Feed, storage: string, secrets: seq<Secret>, parse: Option<bool>, p: Platform): seq<FileWrite> {
    Writes(Keys(feed), Attempter(feed, storage, secrets, parse, p))
  }

  /** The body of the loop, with each `throw` caught as `{error_text}`. */
  method AttemptSlot(feed: Feed, key: string, storage: string, secrets: seq<Secret>, parse: Option<bool>, p: Platform)
    returns (a: Attempt)
    ensures a == RealtimeAttempt(feed, key, storage, secrets, parse, p)
  {
    var parsed := p.parseUrl(SlotUrl(feed, key));
    if parsed.Failure? {
      return Caught(parsed.error);
    }
    var auth := GetAuth(feed, parsed.value, secrets, p);
    if auth.Failure? {
      return Caught(auth.error);
    }
    var response := p.fetch(auth.value.url, auth.value.headers);
    if response.Thrown? {
      return Caught(response.error);
    }
    if !Ok(response.status) {
      return NotOk(response.status, response.statusText);
    }
    var fileData := response.body;
    var filePath := feed.id + "/" + key + ".pb";
    if parse == Some(true) {
      var json := p.decodeToJson(fileData);
      if json.Failure? {
        return Caught(json.error);
      }
      fileData := json.value;
      filePath := feed.id + "/" + key + ".json";
    }
    var fileHash := p.sha256Hex(fileData);
    var failure := p.writeFile(storage + "/" + filePath, fileData);
    if failure.Some? {
      return Caught(failure.value);
    }
    a := Attempt(Stored(filePath, fileHash), Some(FileWrite(storage + "/" + filePath, fileData)));
  }

  /** `extractGtfsRt`: the loop over the populated realtime slots. */
  method ExtractGtfsRt(feed: Feed, storage: string, secrets: seq<Secret>, parse: Option<bool>, p: Platform)
    returns (entry: ManifestEntry, written: seq<FileWrite>)
    ensures entry == Entry(feed, storage, secrets, parse, p)
    ensures written == EntryWrites(feed, storage, secrets, parse, p)
  {
    var keys := Keys(feed);
    ghost var attempt := Attempter(feed, storage, secrets, parse, p);
    entry := ManifestEntry(feed.id, map[]);
    written := [];
    for i := 0 to |keys|
      invariant entry == ManifestEntry(feed.id, Outcomes(keys[..i], attempt))
      invariant written == Writes(keys[..i], attempt)
    {
      var key := keys[i];
      var a := AttemptSlot(feed, key, storage, secrets, parse, p);
      assert a == attempt(key);
      LoopStep(keys, i, attempt);
      entry := entry.(urls := entry.urls[key := a.outcome]);
      written := written + if a.write.Some? then [a.write.value] else [];
    }
    assert keys[..|keys|] == keys;
  }

  // ---------------------------------------------------------------------------
  // Properties

  /** After an ok response, without decoding the body is stored as it came
      under `.pb`; with decoding the JSON text is stored under `.json`, and a
      decoding failure fails the slot by its message. */
  lemma StoredPayload(feed: Feed, key: string, storage: string, secrets: seq<Secret>, parse: Option<bool>, p: Platform,
                      u: Url, req: Request, status: int, statusText: string, body: Bytes)
    requires p.parseUrl(SlotUrl(feed, key)) == Success(u)
    requires GetAuth(feed, u, secrets, p) == Success(req)
    requires p.fetch(req.url, req.headers) == Response(status, statusText, body)
    requires Ok(status)
    ensures !Decoding(parse) ==>
              RealtimeAttempt(feed, key, storage, secrets, parse, p) == Store(storage, feed.id + "/" + key + ".pb", body, p)
    ensures Decoding(parse) ==>
              RealtimeAttempt(feed, key, storage, secrets, parse, p)
              == match p.decodeToJson(body)
                 case Success(json) => Store(storage, feed.id + "/" + key + ".json", json, p)
                 case Failure(e) => Caught(e)
  {
  }

  /** A response that is not ok records its status and status text, whatever
      `parse` says. */
  lemma NotOkRecordsStatus(feed: Feed, key: string, storage: string, secrets: seq<Secret>, parse: Option<bool>, p: Platform,
                           u: Url, req: Request, status: int, statusText: string, body: Bytes)
    requires p.parseUrl(SlotUrl(feed, key)) == Success(u)
    requires GetAuth(feed, u, secrets, p) == Success(req)
    requires p.fetch(req.url, req.headers) == Response(status, statusText, body)
    requires !Ok(status)
    ensures RealtimeAttempt(feed, key, storage, secrets, parse, p) == Attempt(Failed(Some(status), statusText), None)
  {
  }

  /** Every exception before the response (a bad slot URL, a failing
      authorization, a fetch that throws) is recorded by its message, with no
      status and no file, whatever `parse` says. */
  lemma ExceptionsRecordMessage(feed: Feed, key: string, storage: string, secrets: seq<Secret>, parse: Option<bool>, p: Platform)
    ensures p.parseUrl(SlotUrl(feed, key)).Failure? ==>
              RealtimeAttempt(feed, key, storage, secrets, parse, p) == Caught(p.parseUrl(SlotUrl(feed, key)).error)
    ensures p.parseUrl(SlotUrl(feed, key)).Success? ==>
              var auth := GetAuth(feed, p.parseUrl(SlotUrl(feed, key)).value, secrets, p);
              && (auth.Failure? ==> RealtimeAttempt(feed, key, storage, secrets, parse, p) == Caught(auth.error))
              && (auth.Success? && p.fetch(auth.value.url, auth.value.headers).Thrown? ==>
                    RealtimeAttempt(feed, key, storage, secrets, parse, p)
                    == Caught(p.fetch(auth.value.url, auth.value.headers).error))
  {
  }

  /** The realtime slots are fetched in the order alerts, trip updates,
      vehicle positions, each at most once. */
  lemma KeysInFetchOrder(feed: Feed)
    ensures IsSubsequence(Keys(feed), Candidates)
    ensures NoDuplicates(Keys(feed))
  {
    PopulatedSlotsInOrder(feed.urls, Candidates);
    PopulatedSlotsNoDuplicates(feed.urls, Candidates);
  }

  /** A slot's attempt looks at the feed only through its id, its
      authorization and that slot's own URL. */
  lemma AttemptIsLocal(f1: Feed, f2: Feed, key: string, storage: string, secrets: seq<Secret>, parse: Option<bool>, p: Platform)
    requires f1.id == f2.id && f1.authorization == f2.authorization
    requires SlotUrl(f1, key) == SlotUrl(f2, key)
    ensures RealtimeAttempt(f1, key, storage, secrets, parse, p) == RealtimeAttempt(f2, key, storage, secrets, parse, p)
  {
    FetchSlotLocal(f1, f2, key, secrets, p);
  }

  /** A slot's outcome depends on its own URL only: changing, adding or
      removing another slot's URL, or that slot failing, leaves it as it was. */
  lemma SlotsAreIndependent(feed: Feed, key: string, other: string, otherUrl: Option<string>,
                            storage: string, secrets: seq<Secret>, parse: Option<bool>, p: Platform)
    requires other != key
    ensures var changed := feed.(urls := if otherUrl.Some? then feed.urls[other := otherUrl.value] else feed.urls - {other});
      RealtimeAttempt(changed, key, storage, secrets, parse, p) == RealtimeAttempt(feed, key, storage, secrets, parse, p)
  {
    var changed := feed.(urls := if otherUrl.Some? then feed.urls[other := otherUrl.value] else feed.urls - {other});
    assert SlotUrl(changed, key) == SlotUrl(feed, key);
    AttemptIsLocal(changed, feed, key, storage, secrets, parse, p);
  }

  /** The entry's outcome for a populated slot is the outcome that slot would
      have on its own, so the entry is the union of the slots' outcomes. */
  lemma EntryIsUnionOfSlots(feed: Feed, key: string, storage: string, secrets: seq<Secret>, parse: Option<bool>, p: Platform)
    requires key in Candidates && key in feed.urls && feed.urls[key] != ""
    ensures var single := feed.(urls := map[key := feed.urls[key]]);
      && Entry(single, storage, secrets, parse, p).urls.Keys == {key}
      && Entry(feed, storage, secrets, parse, p).urls[key] == Entry(single, storage, secrets, parse, p).urls[key]
  {
    var single := feed.(urls := map[key := feed.urls[key]]);
    var e1, e2 := Entry(single, storage, secrets, parse, p), Entry(feed, storage, secrets, parse, p);
    assert e1.urls.Keys == {key};
    assert SlotUrl(single, key) == SlotUrl(feed, key);
    AttemptIsLocal(single, feed, key, storage, secrets, parse, p);
    assert e1.urls[key] == RealtimeAttempt(single, key, storage, secrets, parse, p).outcome;
    assert e2.urls[key] == RealtimeAttempt(feed, key, storage, secrets, parse, p).outcome;
  }

  /** Every file written lies at `<storage>/<feed id>/<slot>.json` when
      decoding and `<storage>/<feed id>/<slot>.pb` otherwise, for one of the
      feed's populated slots. */
  lemma WrittenPaths(feed: Feed, storage: string, secrets: seq<Secret>, parse: Option<bool>, p: Platform)
    ensures forall w | w in EntryWrites(feed, storage, secrets, parse, p) ::
              exists k | k in Keys(feed) :: w.path == storage + "/" + RealtimePath(feed, k, parse)
  {
    var attempt := Attempter(feed, storage, secrets, parse, p);
    forall k | k in Keys(feed) ensures attempt(k) == RealtimeAttempt(feed, k, storage, secrets, parse, p) { }
  }
}
