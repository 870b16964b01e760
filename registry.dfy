/** Lookups over a loaded registry: feeds, feeds by id or spec, the merged
    operator list, operators by id and the feeds an operator is associated with. */
module Registry {
  import opened Wrappers
  import opened Runtime
  import opened Types
  import opened SeqFacts

  /** `dmfr.feeds ?? []` */
  function GetFeeds(dmfr: Dmfr): (r: seq<Feed>)
    ensures dmfr.feeds.None? ==> r == []
    ensures dmfr.feeds.Some? ==> r == dmfr.feeds.value
  {
    dmfr.feeds.GetOr([])
  }

  // ---------------------------------------------------------------------------
  // Feeds by id

  /** `feed.id === id || feed.supersedes_ids?.includes(id)`; an `undefined` key
      (None) matches no feed, since every feed id is a string. */
  predicate FeedMatches(f: Feed, id: Option<string>) {
    id.Some? && (f.id == id.value || (f.supersedesIds.Some? && id.value in f.supersedesIds.value))
  }

  /** `getFeedById`: the first feed whose id, or one of whose superseded ids,
      equals the key. */
  function GetFeedById(dmfr: Dmfr, id: Option<string>): (r: Option<Feed>)
    ensures r.None? <==> forall f | f in GetFeeds(dmfr) :: !FeedMatches(f, id)
    ensures r.Some? ==> FeedMatches(r.value, id)
    ensures r.Some? ==> exists i | 0 <= i < |GetFeeds(dmfr)| ::
              GetFeeds(dmfr)[i] == r.value && forall j | 0 <= j < i :: !FeedMatches(GetFeeds(dmfr)[j], id)
  {
    var feeds := GetFeeds(dmfr);
    match FindIndex(feeds, f => FeedMatches(f, id))
    case Some(i) =>
      assert feeds[i] == feeds[i] && forall j | 0 <= j < i :: !FeedMatches(feeds[j], id);
      Some(feeds[i])
    case None => None
  }

  // ---------------------------------------------------------------------------
  // Feeds by spec

  /** `feeds.filter(feed => feed.spec === spec)` */
  function FeedsWithSpec(feeds: seq<Feed>, spec: string): (r: seq<Feed>)
    ensures forall f | f in r :: f.spec == spec && f in feeds
    ensures forall f | f in feeds && f.spec == spec :: multiset(r)[f] == multiset(feeds)[f]
    ensures |r| <= |feeds|
  {
    if feeds == [] then []
    else
      var rest := FeedsWithSpec(feeds[1..], spec);
      assert feeds == [feeds[0]] + feeds[1..];
      if feeds[0].spec == spec then [feeds[0]] + rest else rest
  }

  lemma {:induction false} FeedsWithSpecIsSubsequence(feeds: seq<Feed>, spec: string)
    ensures IsSubsequence(FeedsWithSpec(feeds, spec), feeds)
  {
    if feeds != [] {
      FeedsWithSpecIsSubsequence(feeds[1..], spec);
    }
  }

  /** Filtering by the same spec a second time changes nothing. */
  lemma {:induction false} FeedsWithSpecIdempotent(feeds: seq<Feed>, spec: string)
    ensures FeedsWithSpec(FeedsWithSpec(feeds, spec), spec) == FeedsWithSpec(feeds, spec)
  {
    if feeds != [] {
      FeedsWithSpecIdempotent(feeds[1..], spec);
      var rest := FeedsWithSpec(feeds[1..], spec);
      if feeds[0].spec == spec {
        assert ([feeds[0]] + rest)[1..] == rest;
      }
    }
  }

  /** `getFeedsBySpec` */
  function GetFeedsBySpec(dmfr: Dmfr, spec: string): (r: seq<Feed>)
    ensures forall f | f in r :: f.spec == spec
    ensures forall f | f in GetFeeds(dmfr) && f.spec == spec :: multiset(r)[f] == multiset(GetFeeds(dmfr))[f]
    ensures forall f | f in r :: f in GetFeeds(dmfr)
  {
    FeedsWithSpec(GetFeeds(dmfr), spec)
  }

  // ---------------------------------------------------------------------------
  // The merged operator list

  function OperatorsOf(f: Feed): seq<Operator> {
    f.operators.GetOr([])
  }

  /** `{...o, associated_feeds: [...(o.associated_feeds ?? []), {feed_onestop_id: feedId}]}` */
  function Adopt(o: Operator, feedId: string): Operator {
    o.(associatedFeeds := Some(o.associatedFeeds.GetOr([]) + [AssociatedFeed(Some(feedId), None)]))
  }

  /** Adoption changes only the associated feeds, and the operator's feed ids
      become its own followed by the parent feed's, when that is non-empty. */
  lemma AdoptAppendsParent(o: Operator, feedId: string)
    ensures Adopt(o, feedId) == o.(associatedFeeds := Adopt(o, feedId).associatedFeeds)
    ensures Adopt(o, feedId).associatedFeeds.Some?
    ensures AssociatedFeedIds(Adopt(o, feedId).associatedFeeds.value)
            == AssociatedFeedIds(o.associatedFeeds.GetOr([])) + if feedId != "" then [feedId] else []
  {
    AssociatedFeedIdsAppend(o.associatedFeeds.GetOr([]), [AssociatedFeed(Some(feedId), None)]);
    AssociatedFeedIdsOne(AssociatedFeed(Some(feedId), None));
  }

  function AdoptAll(ops: seq<Operator>, feedId: string): (r: seq<Operator>)
    ensures |r| == |ops|
    ensures forall i | 0 <= i < |ops| :: r[i] == Adopt(ops[i], feedId)
  {
    if ops == [] then [] else [Adopt(ops[0], feedId)] + AdoptAll(ops[1..], feedId)
  }

  /** The operators nested under the feeds, in feed order, each with its
      parent feed appended to its associated feeds. */
  function NestedOperators(feeds: seq<Feed>): (r: seq<Operator>)
    ensures forall o | o in r :: exists f, o0 | f in feeds && o0 in OperatorsOf(f) :: o == Adopt(o0, f.id)
    ensures forall f, o0 | f in feeds && o0 in OperatorsOf(f) :: Adopt(o0, f.id) in r
  {
    if feeds == [] then []
    else
      var here := AdoptAll(OperatorsOf(feeds[0]), feeds[0].id);
      var rest := NestedOperators(feeds[1..]);
      assert forall f | f in feeds[1..] :: f in feeds;
      assert forall o0 | o0 in OperatorsOf(feeds[0]) :: Adopt(o0, feeds[0].id) in here by {
        forall o0 | o0 in OperatorsOf(feeds[0]) ensures Adopt(o0, feeds[0].id) in here {
          var i :| 0 <= i < |OperatorsOf(feeds[0])| && OperatorsOf(feeds[0])[i] == o0;
          assert here[i] == Adopt(o0, feeds[0].id);
        }
      }
      here + rest
  }

  /** Every feed-nested operator ends with an associated entry naming its parent feed. */
  lemma NestedOperatorAssociation(feeds: seq<Feed>, o: Operator)
    requires o in NestedOperators(feeds)
    ensures o.associatedFeeds.Some? && |o.associatedFeeds.value| >= 1
    ensures exists f, o0 | f in feeds && o0 in OperatorsOf(f) ::
              o.associatedFeeds.value == o0.associatedFeeds.GetOr([]) + [AssociatedFeed(Some(f.id), None)]
  {
  }

  /** `[...rootOperators, ...feedOperators]` */
  function MergedOperators(dmfr: Dmfr): (r: seq<Operator>)
    ensures forall o :: o in r <==> o in dmfr.operators.GetOr([]) || o in NestedOperators(GetFeeds(dmfr))
  {
    dmfr.operators.GetOr([]) + NestedOperators(GetFeeds(dmfr))
  }

  /** `map.set(o.onestop_id, o)` on the entry list of a JavaScript `Map`: an
      existing key keeps its position and takes the new value, a new key goes last. */
  function MapInsert(entries: seq<Operator>, o: Operator): (r: seq<Operator>)
    ensures o in r
    ensures forall e | e in r :: e in entries || e == o
    ensures forall e | e in entries && e.onestopId != o.onestopId :: e in r
  {
    match FindIndex(entries, (e: Operator) => e.onestopId == o.onestopId)
    case Some(i) =>
      assert entries[i := o][i] == o;
      assert forall j | 0 <= j < |entries| && j != i :: entries[i := o][j] == entries[j];
      entries[i := o]
    case None => entries + [o]
  }

  /** `Array.from(new Map(ops.map(o => [o.onestop_id, o])).values())` */
  function UniqueById(ops: seq<Operator>): (r: seq<Operator>)
    ensures forall o | o in r :: o in ops
    decreases |ops|
  {
    if ops == [] then [] else MapInsert(UniqueById(ops[..|ops| - 1]), ops[|ops| - 1])
  }

  /** Reference for the key order: the distinct ids, in order of first occurrence. */
  function DistinctIds(ops: seq<Operator>): (ids: seq<string>)
    ensures forall i, j | 0 <= i < j < |ids| :: ids[i] != ids[j]
    ensures forall id :: id in ids <==> exists o | o in ops :: o.onestopId == id
    decreases |ops|
  {
    if ops == [] then []
    else
      var prev := DistinctIds(ops[..|ops| - 1]);
      assert forall o | o in ops[..|ops| - 1] :: o in ops;
      assert ops == ops[..|ops| - 1] + [ops[|ops| - 1]];
      if ops[|ops| - 1].onestopId in prev then prev else prev + [ops[|ops| - 1].onestopId]
  }

  /** Reference for the values: the last operator with the id. */
  function LastWithId(ops: seq<Operator>, id: string): Option<Operator>
    decreases |ops|
  {
    if ops == [] then None
    else if ops[|ops| - 1].onestopId == id then Some(ops[|ops| - 1])
    else LastWithId(ops[..|ops| - 1], id)
  }

  /** One `map.set` on entries whose ids are `d`, in order: an id already
      present takes the new operator in place, a new id goes last. */
  lemma MapInsertStep(u: seq<Operator>, d: seq<string>, o: Operator)
    requires |u| == |d| && forall j | 0 <= j < |u| :: u[j].onestopId == d[j]
    requires forall i, j | 0 <= i < j < |d| :: d[i] != d[j]
    ensures var r := MapInsert(u, o);
      && |r| == |if o.onestopId in d then d else d + [o.onestopId]|
      && (forall j | 0 <= j < |u| :: r[j] == if d[j] == o.onestopId then o else u[j])
      && (o.onestopId !in d ==> r[|u|] == o)
  {
    var found := FindIndex(u, (e: Operator) => e.onestopId == o.onestopId);
    if o.onestopId in d {
      var k :| 0 <= k < |d| && d[k] == o.onestopId;
      assert u[k].onestopId == o.onestopId;
      assert found.Some? && found.value == k;
    } else {
      assert found.None?;
    }
  }

  /** The Map construction keeps one operator per id: ids in order of first
      occurrence, each with the last operator that carries it. */
  lemma {:induction false} UniqueByIdIsReference(ops: seq<Operator>)
    ensures |UniqueById(ops)| == |DistinctIds(ops)|
    ensures forall i | 0 <= i < |UniqueById(ops)| ::
              UniqueById(ops)[i].onestopId == DistinctIds(ops)[i]
              && LastWithId(ops, DistinctIds(ops)[i]) == Some(UniqueById(ops)[i])
    decreases |ops|
  {
    if ops != [] {
      var init, o := ops[..|ops| - 1], ops[|ops| - 1];
      UniqueByIdIsReference(init);
      var u, d := UniqueById(init), DistinctIds(init);
      MapInsertStep(u, d, o);
    }
  }

  /** `getOperators` */
  function GetOperators(dmfr: Dmfr): (r: seq<Operator>)
    ensures forall o | o in r :: o in dmfr.operators.GetOr([]) || o in NestedOperators(GetFeeds(dmfr))
  {
    UniqueById(MergedOperators(dmfr))
  }

  /** The merged operators have pairwise distinct ids, every merged id is
      present, ids appear in order of first occurrence, and each operator is
      the last merged one with its id. */
  lemma GetOperatorsProperties(dmfr: Dmfr)
    ensures var r := GetOperators(dmfr);
      && |r| == |DistinctIds(MergedOperators(dmfr))|
      && (forall i, j | 0 <= i < j < |r| :: r[i].onestopId != r[j].onestopId)
      && (forall o | o in MergedOperators(dmfr) :: exists i | 0 <= i < |r| :: r[i].onestopId == o.onestopId)
      && (forall i | 0 <= i < |r| :: r[i].onestopId == DistinctIds(MergedOperators(dmfr))[i])
      && (forall i | 0 <= i < |r| :: LastWithId(MergedOperators(dmfr), r[i].onestopId) == Some(r[i]))
  {
    var ops := MergedOperators(dmfr);
    UniqueByIdIsReference(ops);
    var d := DistinctIds(ops);
    forall o | o in ops ensures exists i | 0 <= i < |d| :: d[i] == o.onestopId {
      assert o.onestopId in d;
    }
  }

  // ---------------------------------------------------------------------------
  // Operators by id and their feeds

  /** `operator.onestop_id === operatorId || operator.supersedes_ids?.includes(operatorId)` */
  predicate OperatorMatches(o: Operator, operatorId: string) {
    o.onestopId == operatorId || (o.supersedesIds.Some? && operatorId in o.supersedesIds.value)
  }

  /** `getOperatorById`: the first merged operator matching the id. */
  function GetOperatorById(dmfr: Dmfr, operatorId: string): (r: Option<Operator>)
    ensures r.None? <==> forall o | o in GetOperators(dmfr) :: !OperatorMatches(o, operatorId)
    ensures r.Some? ==> OperatorMatches(r.value, operatorId)
    ensures r.Some? ==> exists i | 0 <= i < |GetOperators(dmfr)| ::
              GetOperators(dmfr)[i] == r.value
              && forall j | 0 <= j < i :: !OperatorMatches(GetOperators(dmfr)[j], operatorId)
  {
    var ops := GetOperators(dmfr);
    match FindIndex(ops, o => OperatorMatches(o, operatorId))
    case Some(i) =>
      assert ops[i] == ops[i] && forall j | 0 <= j < i :: !OperatorMatches(ops[j], operatorId);
      Some(ops[i])
    case None => None
  }

  /** `associated_feeds?.flatMap(f => f.feed_onestop_id ? [f.feed_onestop_id] : []) ?? []` */
  function AssociatedFeedIds(afs: seq<AssociatedFeed>): (ids: seq<string>)
    ensures |ids| <= |afs|
    ensures forall id | id in ids :: id != ""
    ensures forall a | a in afs && Truthy(a.feedOnestopId) :: a.feedOnestopId.value in ids
    ensures forall id | id in ids :: exists a | a in afs :: a.feedOnestopId == Some(id)
  {
    if afs == [] then []
    else
      var rest := AssociatedFeedIds(afs[1..]);
      assert forall a | a in afs[1..] :: a in afs;
      assert afs == [afs[0]] + afs[1..];
      if Truthy(afs[0].feedOnestopId) then [afs[0].feedOnestopId.value] + rest else rest
  }

  /** The ids of a concatenation are the ids of each part, in order. */
  lemma {:induction false} AssociatedFeedIdsAppend(a: seq<AssociatedFeed>, b: seq<AssociatedFeed>)
    ensures AssociatedFeedIds(a + b) == AssociatedFeedIds(a) + AssociatedFeedIds(b)
    decreases |a|
  {
    if a == [] {
      assert a + b == b;
    } else {
      ConsTail(a, b);
      AssociatedFeedIdsAppend(a[1..], b);
      var head := if Truthy(a[0].feedOnestopId) then [a[0].feedOnestopId.value] else [];
      ConcatAssoc(head, AssociatedFeedIds(a[1..]), AssociatedFeedIds(b));
    }
  }

  /** One associated entry yields its id when that is non-empty, and nothing
      otherwise. */
  lemma AssociatedFeedIdsOne(af: AssociatedFeed)
    ensures AssociatedFeedIds([af]) == if Truthy(af.feedOnestopId) then [af.feedOnestopId.value] else []
  {
    assert [af][1..] == [];
  }

  /** The loop of `getFeedsByOperatorId`: resolve each id with `getFeedById`
      and keep the feeds found, in id order. */
  function ResolveFeeds(dmfr: Dmfr, ids: seq<string>): (r: seq<Feed>)
    ensures |r| <= |ids|
    decreases |ids|
  {
    if ids == [] then []
    else
      var prev := ResolveFeeds(dmfr, ids[..|ids| - 1]);
      assert forall id | id in ids[..|ids| - 1] :: id in ids;
      prev + Resolved(dmfr, ids[|ids| - 1])
  }

  /** The feeds one associated id contributes: its feed, if it names one. */
  function Resolved(dmfr: Dmfr, id: string): (r: seq<Feed>)
    ensures |r| <= 1
    ensures forall f | f in r :: f in GetFeeds(dmfr) && FeedMatches(f, Some(id))
    ensures r == [] <==> forall f | f in GetFeeds(dmfr) :: !FeedMatches(f, Some(id))
  {
    match GetFeedById(dmfr, Some(id))
    case Some(f) => [f]
    case None => []
  }

  /** Every resolved feed is a registry feed known by one of the ids. */
  lemma {:induction false} ResolveFeedsMatch(dmfr: Dmfr, ids: seq<string>)
    ensures forall f | f in ResolveFeeds(dmfr, ids) :: f in GetFeeds(dmfr)
    ensures forall f | f in ResolveFeeds(dmfr, ids) :: exists id | id in ids :: FeedMatches(f, Some(id))
    decreases |ids|
  {
    if ids != [] {
      var init, last := ids[..|ids| - 1], ids[|ids| - 1];
      ResolveFeedsMatch(dmfr, init);
      assert forall id | id in init :: id in ids;
      forall f | f in ResolveFeeds(dmfr, ids) ensures exists id | id in ids :: FeedMatches(f, Some(id)) {
        if f in ResolveFeeds(dmfr, init) {
          var id :| id in init && FeedMatches(f, Some(id));
          assert id in ids;
        } else {
          assert f in Resolved(dmfr, last);
          assert last in ids;
        }
      }
    }
  }

  /** Resolving one more id appends that id's feed, if any. */
  lemma ResolveFeedsSnoc(dmfr: Dmfr, ids: seq<string>, id: string)
    ensures ResolveFeeds(dmfr, ids + [id]) == ResolveFeeds(dmfr, ids) + Resolved(dmfr, id)
  {
    assert (ids + [id])[..|ids|] == ids;
  }

  /** Resolution works id by id: the feeds of a concatenation are the
      concatenation of the feeds. */
  lemma {:induction false} ResolveFeedsAppend(dmfr: Dmfr, a: seq<string>, b: seq<string>)
    ensures ResolveFeeds(dmfr, a + b) == ResolveFeeds(dmfr, a) + ResolveFeeds(dmfr, b)
    decreases |b|
  {
    if b == [] {
      assert a + b == a;
    } else {
      var b', last := b[..|b| - 1], b[|b| - 1];
      InitLast(b);
      ConcatAssoc(a, b', [last]);
      ResolveFeedsAppend(dmfr, a, b');
      ResolveFeedsSnoc(dmfr, a + b', last);
      ResolveFeedsSnoc(dmfr, b', last);
      ConcatAssoc(ResolveFeeds(dmfr, a), ResolveFeeds(dmfr, b'), Resolved(dmfr, last));
    }
  }

  /** An id that names no feed is skipped without trace. */
  lemma ResolveFeedsSkipsUnknown(dmfr: Dmfr, a: seq<string>, id: string, b: seq<string>)
    requires GetFeedById(dmfr, Some(id)).None?
    ensures ResolveFeeds(dmfr, a + [id] + b) == ResolveFeeds(dmfr, a + b)
  {
    ResolveFeedsAppend(dmfr, a + [id], b);
    ResolveFeedsAppend(dmfr, a, [id]);
    ResolveFeedsAppend(dmfr, a, b);
    assert [id][..0] == [];
    assert Resolved(dmfr, id) == [];
    assert ResolveFeeds(dmfr, [id]) == [];
    assert ResolveFeeds(dmfr, a + [id]) == ResolveFeeds(dmfr, a);
  }

  /** What `getFeedsByOperatorId` returns. */
  function FeedsByOperatorId(dmfr: Dmfr, operatorId: string): (r: seq<Feed>)
    ensures GetOperatorById(dmfr, operatorId).None? ==> r == []
    ensures forall f | f in r :: f in GetFeeds(dmfr)
    ensures GetOperatorById(dmfr, operatorId).Some? ==>
              |r| <= |AssociatedFeedIds(GetOperatorById(dmfr, operatorId).value.associatedFeeds.GetOr([]))|
    ensures GetOperatorById(dmfr, operatorId).Some? ==>
              var ids := AssociatedFeedIds(GetOperatorById(dmfr, operatorId).value.associatedFeeds.GetOr([]));
              forall f | f in r :: exists id | id in ids :: FeedMatches(f, Some(id))
  {
    match GetOperatorById(dmfr, operatorId)
    case None => []
    case Some(operator) =>
      var ids := AssociatedFeedIds(operator.associatedFeeds.GetOr([]));
      ResolveFeedsMatch(dmfr, ids);
      ResolveFeeds(dmfr, ids)
  }

  /** The feeds one associated entry contributes: the feed its id names, if
      the id is non-empty and names one. */
  function EntryFeeds(dmfr: Dmfr, af: AssociatedFeed): seq<Feed> {
    if Truthy(af.feedOnestopId) then Resolved(dmfr, af.feedOnestopId.value) else []
  }

  /** Reference for the order of `getFeedsByOperatorId`: each associated
      entry's feeds, in the order of `associated_feeds`. */
  function FeedsOfEntries(dmfr: Dmfr, afs: seq<AssociatedFeed>): seq<Feed>
    decreases |afs|
  {
    if afs == [] then [] else FeedsOfEntries(dmfr, afs[..|afs| - 1]) + EntryFeeds(dmfr, afs[|afs| - 1])
  }

  /** Resolving the associated ids gives each entry's feeds in entry order. */
  lemma {:induction false} ResolveAssociatedFeeds(dmfr: Dmfr, afs: seq<AssociatedFeed>)
    ensures ResolveFeeds(dmfr, AssociatedFeedIds(afs)) == FeedsOfEntries(dmfr, afs)
    decreases |afs|
  {
    if afs != [] {
      var init, last := afs[..|afs| - 1], afs[|afs| - 1];
      InitLast(afs);
      AssociatedFeedIdsAppend(init, [last]);
      AssociatedFeedIdsOne(last);
      ResolveFeedsAppend(dmfr, AssociatedFeedIds(init), AssociatedFeedIds([last]));
      ResolveAssociatedFeeds(dmfr, init);
      if Truthy(last.feedOnestopId) {
        ResolveFeedsSnoc(dmfr, [], last.feedOnestopId.value);
        assert [] + [last.feedOnestopId.value] == [last.feedOnestopId.value];
      }
    }
  }

  /** `getFeedsByOperatorId` lists the operator's feeds in the order of its
      `associated_feeds`, each entry contributing the feed its id names. */
  lemma FeedsByOperatorIdInEntryOrder(dmfr: Dmfr, operatorId: string)
    ensures GetOperatorById(dmfr, operatorId).Some? ==>
              FeedsByOperatorId(dmfr, operatorId)
              == FeedsOfEntries(dmfr, GetOperatorById(dmfr, operatorId).value.associatedFeeds.GetOr([]))
  {
    if GetOperatorById(dmfr, operatorId).Some? {
      ResolveAssociatedFeeds(dmfr, GetOperatorById(dmfr, operatorId).value.associatedFeeds.GetOr([]));
    }
  }

  /** `getFeedsByOperatorId`: looks the operator up, then pushes the feed of
      each associated id that resolves. */
  method GetFeedsByOperatorId(dmfr: Dmfr, operatorId: string) returns (feeds: seq<Feed>)
    ensures feeds == FeedsByOperatorId(dmfr, operatorId)
  {
    var operator := GetOperatorById(dmfr, operatorId);
    if operator.None? {
      return [];
    }
    var feedIds := AssociatedFeedIds(operator.value.associatedFeeds.GetOr([]));
    feeds := [];
    for i := 0 to |feedIds|
      invariant feeds == ResolveFeeds(dmfr, feedIds[..i])
    {
      TakeSnoc(feedIds, i);
      ResolveFeedsSnoc(dmfr, feedIds[..i], feedIds[i]);
      var feed := GetFeedById(dmfr, Some(feedIds[i]));
      if feed.None? {
        continue;
      }
      feeds := feeds + [feed.value];
    }
    assert feedIds[..|feedIds|] == feedIds;
  }
}
