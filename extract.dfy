/** `extract`: dispatch a feed to the extractor of its spec. */
module Extract {
  import opened Wrappers
  import opened Runtime
  import opened Types
  import opened Slots
  import Gtfs
  import GtfsRt

  /** The slots an extractor visits for a feed of the given spec. */
  function SlotsOf(spec: string): seq<string> {
    if spec == "gtfs" then Gtfs.Candidates
    else if spec == "gtfs-rt" then GtfsRt.Candidates
    else []
  }

  /** The entry `extract` resolves to. Its slots are exactly the populated
      slots of the feed's spec: `static_current` for `gtfs`, the three
      realtime slots for `gtfs-rt`, and none for any other spec. */
  function ExtractEntry(feed: Feed, storage: string, secrets: seq<Secret>, gtfsRtParse: Option<bool>, p: Platform): (e: ManifestEntry)
    ensures e.id == feed.id
    ensures forall k :: k in e.urls <==> k in SlotsOf(feed.spec) && k in feed.urls && feed.urls[k] != ""
    ensures feed.spec == "gtfs" ==>
              forall k | k in e.urls :: e.urls[k] == Gtfs.StaticAttempt(feed, k, storage, secrets, p).outcome
    ensures feed.spec == "gtfs-rt" ==>
              forall k | k in e.urls :: e.urls[k] == GtfsRt.RealtimeAttempt(feed, k, storage, secrets, gtfsRtParse, p).outcome
  {
    if feed.spec == "gtfs" then Gtfs.Entry(feed, storage, secrets, p)
    else if feed.spec == "gtfs-rt" then GtfsRt.Entry(feed, storage, secrets, gtfsRtParse, p)
    else ManifestEntry(feed.id, map[])
  }

  /** The files `extract` writes for a feed. */
  function ExtractWrites(feed: Feed, storage: string, secrets: seq<Secret>, gtfsRtParse: Option<bool>, p: Platform): seq<FileWrite> {
    if feed.spec == "gtfs" then Gtfs.EntryWrites(feed, storage, secrets, p)
    else if feed.spec == "gtfs-rt" then GtfsRt.EntryWrites(feed, storage, secrets, gtfsRtParse, p)
    else []
  }

  method ExtractFeed(feed: Feed, storage: string, secrets: seq<Secret>, gtfsRtParse: Option<bool>, p: Platform)
    returns (entry: ManifestEntry, written: seq<FileWrite>)
    ensures entry == ExtractEntry(feed, storage, secrets, gtfsRtParse, p)
    ensures written == ExtractWrites(feed, storage, secrets, gtfsRtParse, p)
  {
    if feed.spec == "gtfs" {
      entry, written := Gtfs.ExtractGtfs(feed, storage, secrets, p);
    } else if feed.spec == "gtfs-rt" {
      entry, written := GtfsRt.ExtractGtfsRt(feed, storage, secrets, gtfsRtParse, p);
    } else {
      entry, written := ManifestEntry(feed.id, map[]), [];
    }
  }

  /** The extension of the files written for a feed of the given spec. */
  function Extension(spec: string, gtfsRtParse: Option<bool>): string {
    if spec == "gtfs" then ".zip" else if GtfsRt.Decoding(gtfsRtParse) then ".json" else ".pb"
  }

  /** Every file written for a feed lies under `<storage>/<feed id>/`, is named
      after one of the feed's populated slots, and carries the extension of its
      spec: `.zip` for static feeds, `.json` or `.pb` for realtime ones as
      `gtfsRtParse` says. */
  lemma WritesStayInFeedDirectory(feed: Feed, storage: string, secrets: seq<Secret>, gtfsRtParse: Option<bool>, p: Platform)
    ensures forall w | w in ExtractWrites(feed, storage, secrets, gtfsRtParse, p) ::
              exists k | k in SlotsOf(feed.spec) && k in feed.urls && feed.urls[k] != "" ::
                w.path == storage + "/" + (feed.id + "/" + k + Extension(feed.spec, gtfsRtParse))
  {
    if feed.spec == "gtfs" {
      Gtfs.WrittenPaths(feed, storage, secrets, p);
    } else if feed.spec == "gtfs-rt" {
      GtfsRt.WrittenPaths(feed, storage, secrets, gtfsRtParse, p);
    }
  }
}
