/** The `extract` command from the point its flags are known: narrow the
    registry's feeds by the filter flags, load the secrets, extract every
    remaining feed and assemble the manifest. */
module ExtractCommand {
  import opened Wrappers
  import opened Runtime
  import opened Types
  import opened Registry
  import opened Slots
  import opened Extract

  /** The parsed command-line flags. `storage` already holds its default. */
  datatype Flags = Flags(
    storage: string,
    spec: Option<string>,
    operatorId: Option<string>,
    feedId: Option<string>,
    gtfsRtParse: Option<bool>,
    secrets: Option<string>)

  /** How the `--feed-id` lookup is keyed. The command passes `{dmfr, feedId}`
      while `getFeedById` reads the property `id`, so as shipped the key is
      `undefined`; `ByFeedId` is the lookup by the flag's value. */
  datatype FeedIdKeying = AsShipped | ByFeedId

  /** The `id` that `getFeedById` receives for the `--feed-id` value. */
  function LookupKey(feedId: string, keying: FeedIdKeying): Option<string> {
    match keying
    case AsShipped => None
    case ByFeedId => Some(feedId)
  }

  /** `if (spec) dmfr.feeds = getFeedsBySpec(...)`. */
  function SpecStage(dmfr: Dmfr, flags: Flags): (r: Dmfr)
    ensures r.operators == dmfr.operators
    ensures forall f | f in GetFeeds(r) :: f in GetFeeds(dmfr)
    ensures Truthy(flags.spec) ==> GetFeeds(r) == GetFeedsBySpec(dmfr, flags.spec.value)
    ensures !Truthy(flags.spec) ==> r == dmfr
  {
    if Truthy(flags.spec) then dmfr.(feeds := Some(GetFeedsBySpec(dmfr, flags.spec.value))) else dmfr
  }

  /** `if (operatorId) dmfr.feeds = getFeedsByOperatorId(...)`, on the
      registry as the spec stage left it; `OperatorAloneSelectsOperatorFeeds`
      and `OperatorAfterSpecSeesSpecFeeds` give the selection this yields. */
  function OperatorStage(dmfr: Dmfr, flags: Flags): (r: Dmfr)
    ensures r.operators == dmfr.operators
    ensures forall f | f in GetFeeds(r) :: f in GetFeeds(dmfr)
    ensures Truthy(flags.operatorId) ==> GetFeeds(r) == FeedsByOperatorId(dmfr, flags.operatorId.value)
    ensures !Truthy(flags.operatorId) ==> r == dmfr
  {
    if Truthy(flags.operatorId) then dmfr.(feeds := Some(FeedsByOperatorId(dmfr, flags.operatorId.value))) else dmfr
  }

  /** `if (feedId) dmfr.feeds = feed ? [feed] : []`, on the registry as the
      operator stage left it; `FeedIdAsShippedSelectsNothing` and
      `FeedIdSelectsMatch` say which feed, if any, this keeps. */
  function FeedIdStage(dmfr: Dmfr, flags: Flags, keying: FeedIdKeying): (r: Dmfr)
    ensures r.operators == dmfr.operators
    ensures forall f | f in GetFeeds(r) :: f in GetFeeds(dmfr)
    ensures Truthy(flags.feedId) ==> |GetFeeds(r)| <= 1
    ensures !Truthy(flags.feedId) ==> r == dmfr
  {
    if Truthy(flags.feedId) then
      var feed := GetFeedById(dmfr, LookupKey(flags.feedId.value, keying));
      dmfr.(feeds := Some(if feed.Some? then [feed.value] else []))
    else dmfr
  }

  /** The feeds the command extracts. Each filter only narrows what the
      previous one left, so every selected feed is a feed of the registry and,
      under `--spec`, has that spec. */
  function SelectFeeds(dmfr: Dmfr, flags: Flags, keying: FeedIdKeying): (r: seq<Feed>)
    ensures forall f | f in r :: f in GetFeeds(dmfr)
    ensures Truthy(flags.spec) ==> forall f | f in r :: f.spec == flags.spec.value
    ensures Truthy(flags.feedId) ==> |r| <= 1
  {
    var specStage := SpecStage(dmfr, flags);
    var operatorStage := OperatorStage(specStage, flags);
    GetFeeds(FeedIdStage(operatorStage, flags, keying))
  }

  /** `cli.flags.secrets ? await loadSecrets(...) : []`. */
  function SecretsFor(flags: Flags, loadSecrets: string -> seq<Secret>): (r: seq<Secret>)
    ensures !Truthy(flags.secrets) ==> r == []
    ensures Truthy(flags.secrets) ==> r == loadSecrets(flags.secrets.value)
  {
    if Truthy(flags.secrets) then loadSecrets(flags.secrets.value) else []
  }

  /** The manifest entries for `feeds`, one per feed in order. */
  function Entries(feeds: seq<Feed>, storage: string, secrets: seq<Secret>, gtfsRtParse: Option<bool>, p: Platform): (r: seq<ManifestEntry>)
    ensures |r| == |feeds|
    ensures forall i | 0 <= i < |feeds| :: r[i] == ExtractEntry(feeds[i], storage, secrets, gtfsRtParse, p)
    decreases |feeds|
  {
    if feeds == [] then []
    else Entries(feeds[..|feeds| - 1], storage, secrets, gtfsRtParse, p)
         + [ExtractEntry(feeds[|feeds| - 1], storage, secrets, gtfsRtParse, p)]
  }

  /** The files written while extracting `feeds`, in order. */
  function AllWrites(feeds: seq<Feed>, storage: string, secrets: seq<Secret>, gtfsRtParse: Option<bool>, p: Platform): seq<FileWrite>
    decreases |feeds|
  {
    if feeds == [] then []
    else AllWrites(feeds[..|feeds| - 1], storage, secrets, gtfsRtParse, p)
         + ExtractWrites(feeds[|feeds| - 1], storage, secrets, gtfsRtParse, p)
  }

  /** Lines 70-93 of the command: the filters overwrite `dmfr.feeds` in turn,
      then `getFeeds` reads what is left. */
  method Select(dmfr: Dmfr, flags: Flags, keying: FeedIdKeying) returns (feeds: seq<Feed>)
    ensures feeds == SelectFeeds(dmfr, flags, keying)
  {
    var d := dmfr;
    if Truthy(flags.spec) {
      d := d.(feeds := Some(GetFeedsBySpec(d, flags.spec.value)));
    }
    assert d == SpecStage(dmfr, flags);
    if Truthy(flags.operatorId) {
      var byOperator := GetFeedsByOperatorId(d, flags.operatorId.value);
      d := d.(feeds := Some(byOperator));
    }
    assert d == OperatorStage(SpecStage(dmfr, flags), flags);
    if Truthy(flags.feedId) {
      var feed := GetFeedById(d, LookupKey(flags.feedId.value, keying));
      d := d.(feeds := Some(if feed.Some? then [feed.value] else []));
    }
    feeds := GetFeeds(d);
  }

  /** One more feed appends its entry and its writes. */
  lemma ExtractStep(feeds: seq<Feed>, i: nat, storage: string, secrets: seq<Secret>, gtfsRtParse: Option<bool>, p: Platform)
    requires i < |feeds|
    ensures Entries(feeds[..i + 1], storage, secrets, gtfsRtParse, p)
            == Entries(feeds[..i], storage, secrets, gtfsRtParse, p) + [ExtractEntry(feeds[i], storage, secrets, gtfsRtParse, p)]
    ensures AllWrites(feeds[..i + 1], storage, secrets, gtfsRtParse, p)
            == AllWrites(feeds[..i], storage, secrets, gtfsRtParse, p) + ExtractWrites(feeds[i], storage, secrets, gtfsRtParse, p)
  {
    assert feeds[..i + 1][..i] == feeds[..i];
  }

  /** Lines 105-119 of the command: extract every feed in order and push its
      entry onto the manifest. */
  method ExtractAll(feeds: seq<Feed>, storage: string, secrets: seq<Secret>, gtfsRtParse: Option<bool>, now: Timestamp, p: Platform)
    returns (manifest: Manifest, written: seq<FileWrite>)
    ensures manifest == Manifest(Entries(feeds, storage, secrets, gtfsRtParse, p), now)
    ensures written == AllWrites(feeds, storage, secrets, gtfsRtParse, p)
  {
    manifest := Manifest([], now);
    written := [];
    for i := 0 to |feeds|
      invariant manifest == Manifest(Entries(feeds[..i], storage, secrets, gtfsRtParse, p), now)
      invariant written == AllWrites(feeds[..i], storage, secrets, gtfsRtParse, p)
    {
      ExtractStep(feeds, i, storage, secrets, gtfsRtParse, p);
      var entry, w := ExtractFeed(feeds[i], storage, secrets, gtfsRtParse, p);
      manifest := manifest.(feeds := manifest.feeds + [entry]);
      written := written + w;
    }
    assert feeds[..|feeds|] == feeds;
  }

  /** Lines 70-119 of the command: select the feeds, load the secrets when a
      secrets path is given, and extract. The clock reading is `now`. */
  method Run(dmfr: Dmfr, flags: Flags, keying: FeedIdKeying, loadSecrets: string -> seq<Secret>, now: Timestamp, p: Platform)
    returns (manifest: Manifest, written: seq<FileWrite>)
    ensures manifest.extractedAt == now
    ensures |manifest.feeds| == |SelectFeeds(dmfr, flags, keying)|
    ensures forall i | 0 <= i < |manifest.feeds| ::
              manifest.feeds[i] == ExtractEntry(SelectFeeds(dmfr, flags, keying)[i], flags.storage,
                                                SecretsFor(flags, loadSecrets), flags.gtfsRtParse, p)
              && manifest.feeds[i].id == SelectFeeds(dmfr, flags, keying)[i].id
    ensures written == AllWrites(SelectFeeds(dmfr, flags, keying), flags.storage,
                                 SecretsFor(flags, loadSecrets), flags.gtfsRtParse, p)
  {
    var feeds := Select(dmfr, flags, keying);
    var secrets := SecretsFor(flags, loadSecrets);
    manifest, written := ExtractAll(feeds, flags.storage, secrets, flags.gtfsRtParse, now, p);
  }

  // ---------------------------------------------------------------------------
  // Properties of the selection

  /** Without filter flags every feed of the registry is extracted. */
  lemma NoFiltersSelectsAll(dmfr: Dmfr, flags: Flags, keying: FeedIdKeying)
    requires !Truthy(flags.spec) && !Truthy(flags.operatorId) && !Truthy(flags.feedId)
    ensures SelectFeeds(dmfr, flags, keying) == GetFeeds(dmfr)
  {
  }

  /** As shipped, a non-empty `--feed-id` selects no feed at all, whatever the
      registry holds: the lookup key is `undefined`, which no feed id and no
      superseded id equals. */
  lemma FeedIdAsShippedSelectsNothing(dmfr: Dmfr, flags: Flags)
    requires Truthy(flags.feedId)
    ensures SelectFeeds(dmfr, flags, AsShipped) == []
  {
  }

  /** Keyed by the flag's value, a non-empty `--feed-id` selects the first feed
      whose id or superseded ids contain it, among the feeds the earlier
      filters left, and none when there is no such feed. */
  lemma FeedIdSelectsMatch(dmfr: Dmfr, flags: Flags)
    requires Truthy(flags.feedId)
    ensures var r := SelectFeeds(dmfr, flags, ByFeedId);
      var earlier := GetFeeds(OperatorStage(SpecStage(dmfr, flags), flags));
      && (r == [] <==> forall f | f in earlier :: !FeedMatches(f, flags.feedId))
      && (r != [] ==> exists i | 0 <= i < |earlier| ::
            r == [earlier[i]] && FeedMatches(earlier[i], flags.feedId)
            && forall j | 0 <= j < i :: !FeedMatches(earlier[j], flags.feedId))
  {
  }

  /** With `--feed-id` alone, keyed by the flag's value, the feed selected is
      the registry's first feed known by that id, wherever it is. */
  lemma FeedIdAloneSearchesWholeRegistry(dmfr: Dmfr, flags: Flags)
    requires Truthy(flags.feedId) && !Truthy(flags.spec) && !Truthy(flags.operatorId)
    ensures SelectFeeds(dmfr, flags, ByFeedId)
            == if GetFeedById(dmfr, flags.feedId).Some? then [GetFeedById(dmfr, flags.feedId).value] else []
  {
  }

  /** With `--spec` alone, the command extracts every registry feed of that
      spec, in registry order. */
  lemma SpecAloneSelectsSpecFeeds(dmfr: Dmfr, flags: Flags, keying: FeedIdKeying)
    requires Truthy(flags.spec) && !Truthy(flags.operatorId) && !Truthy(flags.feedId)
    ensures SelectFeeds(dmfr, flags, keying) == GetFeedsBySpec(dmfr, flags.spec.value)
  {
  }

  /** With `--operator-id` alone, the command extracts what
      `getFeedsByOperatorId` returns on the whole registry. */
  lemma OperatorAloneSelectsOperatorFeeds(dmfr: Dmfr, flags: Flags, keying: FeedIdKeying)
    requires Truthy(flags.operatorId) && !Truthy(flags.spec) && !Truthy(flags.feedId)
    ensures SelectFeeds(dmfr, flags, keying) == FeedsByOperatorId(dmfr, flags.operatorId.value)
  {
  }

  /** `--operator-id` after `--spec` sees only the feeds of that spec: the
      operator's associated feeds are looked up among them, and the nested
      operators of the other feeds are no longer known. */
  lemma OperatorAfterSpecSeesSpecFeeds(dmfr: Dmfr, flags: Flags, keying: FeedIdKeying)
    requires Truthy(flags.spec) && Truthy(flags.operatorId) && !Truthy(flags.feedId)
    ensures SelectFeeds(dmfr, flags, keying)
            == FeedsByOperatorId(dmfr.(feeds := Some(GetFeedsBySpec(dmfr, flags.spec.value))), flags.operatorId.value)
  {
  }

  // ---------------------------------------------------------------------------
  // Properties of the run

  /** Every file the run writes belongs to one of the extracted feeds: it lies
      at `<storage>/<feed id>/<slot><extension>` for a populated slot of that
      feed's spec. */
  lemma {:induction false} WritesBelongToExtractedFeeds(feeds: seq<Feed>, storage: string, secrets: seq<Secret>,
                                                         gtfsRtParse: Option<bool>, p: Platform)
    ensures forall w | w in AllWrites(feeds, storage, secrets, gtfsRtParse, p) ::
              exists f, k | f in feeds && k in SlotsOf(f.spec) && k in f.urls && f.urls[k] != "" ::
                w.path == storage + "/" + (f.id + "/" + k + Extension(f.spec, gtfsRtParse))
    decreases |feeds|
  {
    if feeds != [] {
      var init, last := feeds[..|feeds| - 1], feeds[|feeds| - 1];
      WritesBelongToExtractedFeeds(init, storage, secrets, gtfsRtParse, p);
      WritesStayInFeedDirectory(last, storage, secrets, gtfsRtParse, p);
      assert forall f | f in init :: f in feeds;
    }
  }
}
