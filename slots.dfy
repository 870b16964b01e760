/** What both extractors do for one URL slot before and after their own
    content transformation, and how slot results are collected into a
    manifest entry. */
module Slots {
  import opened Wrappers
  import opened WebUrl
  import opened Runtime
  import opened Types
  import opened Auth
  import opened SeqFacts

  /** A file `Bun.write` stored: its full path under the storage root and its bytes. */
  datatype FileWrite = FileWrite(path: string, data: Bytes)

  /** The result of one slot: its manifest outcome and the file it wrote, if any. */
  datatype Attempt = Attempt(outcome: Outcome, write: Option<FileWrite>)

  /** `keys.filter(key => feed.urls[key])`: the candidate slots whose URL is
      present and non-empty, in candidate order. */
  function PopulatedSlots(urls: map<string, string>, candidates: seq<string>): (keys: seq<string>)
    ensures forall k :: k in keys <==> k in candidates && k in urls && urls[k] != ""
    ensures |keys| <= |candidates|
  {
    if candidates == [] then []
    else
      var rest := PopulatedSlots(urls, candidates[1..]);
      assert forall k | k in candidates :: k == candidates[0] || k in candidates[1..];
      if candidates[0] in urls && urls[candidates[0]] != "" then [candidates[0]] + rest else rest
  }

  /** The populated slots come in candidate order: they are the candidates
      with the unpopulated ones left out. */
  lemma {:induction false} PopulatedSlotsInOrder(urls: map<string, string>, candidates: seq<string>)
    ensures IsSubsequence(PopulatedSlots(urls, candidates), candidates)
  {
    if candidates != [] {
      PopulatedSlotsInOrder(urls, candidates[1..]);
      var rest := PopulatedSlots(urls, candidates[1..]);
      assert ([candidates[0]] + rest)[1..] == rest;
    }
  }

  /** Distinct candidates give distinct slots, so no slot is visited twice. */
  lemma {:induction false} PopulatedSlotsNoDuplicates(urls: map<string, string>, candidates: seq<string>)
    requires NoDuplicates(candidates)
    ensures NoDuplicates(PopulatedSlots(urls, candidates))
  {
    if candidates != [] {
      assert NoDuplicates(candidates[1..]) by {
        forall i, j | 0 <= i < j < |candidates[1..]| ensures candidates[1..][i] != candidates[1..][j] {
          assert candidates[1..][i] == candidates[i + 1] && candidates[1..][j] == candidates[j + 1];
        }
      }
      PopulatedSlotsNoDuplicates(urls, candidates[1..]);
      var rest := PopulatedSlots(urls, candidates[1..]);
      assert candidates[0] !in candidates[1..] by {
        forall j | 0 <= j < |candidates[1..]| ensures candidates[1..][j] != candidates[0] {
          assert candidates[1..][j] == candidates[j + 1];
        }
      }
      assert candidates[0] !in rest;
      var keys := [candidates[0]] + rest;
      forall i, j | 0 <= i < j < |keys| ensures keys[i] != keys[j] {
        if i == 0 {
          assert keys[j] == rest[j - 1];
        } else {
          assert keys[i] == rest[i - 1] && keys[j] == rest[j - 1];
        }
      }
    }
  }

  /** The text `new URL(feed.urls[key]!)` parses. The extractors only visit
      populated slots; for a missing one JavaScript would parse "undefined". */
  function SlotUrl(feed: Feed, key: string): string {
    if key in feed.urls then feed.urls[key] else "undefined"
  }

  /** How far a slot got before its content transformation. */
  datatype Fetched =
    | Rejected(status: int, statusText: string)
    | Received(url: Url, body: Bytes)
    | Raised(error: Exception)

  /** The shared start of a slot: parse the slot URL, resolve authorization,
      fetch, check `response.ok` and read the body. */
  function FetchSlot(feed: Feed, key: string, secrets: seq<Secret>, p: Platform): (f: Fetched)
    ensures f.Rejected? ==> !Ok(f.status)
    ensures p.parseUrl(SlotUrl(feed, key)).Failure? ==> f == Raised(p.parseUrl(SlotUrl(feed, key)).error)
    ensures p.parseUrl(SlotUrl(feed, key)).Success? ==>
              var auth := GetAuth(feed, p.parseUrl(SlotUrl(feed, key)).value, secrets, p);
              && (auth.Failure? ==> f == Raised(auth.error))
              && (auth.Success? && p.fetch(auth.value.url, auth.value.headers).Thrown? ==>
                    f == Raised(p.fetch(auth.value.url, auth.value.headers).error))
    ensures f.Received? ==>
              && p.parseUrl(SlotUrl(feed, key)).Success?
              && GetAuth(feed, p.parseUrl(SlotUrl(feed, key)).value, secrets, p).Success?
              && GetAuth(feed, p.parseUrl(SlotUrl(feed, key)).value, secrets, p).value.url == f.url
  {
    match p.parseUrl(SlotUrl(feed, key))
    case Failure(e) => Raised(e)
    case Success(u) =>
      match GetAuth(feed, u, secrets, p)
      case Failure(e) => Raised(e)
      case Success(req) =>
        match p.fetch(req.url, req.headers)
        case Thrown(e) => Raised(e)
        case Response(status, statusText, body) =>
          if Ok(status) then Received(req.url, body) else Rejected(status, statusText)
  }

  /** The `catch` branch: `{error_text: error?.message ?? "Error"}`, no file. */
  function Caught(e: Exception): Attempt {
    Attempt(Failed(None, ErrorText(e)), None)
  }

  /** The `!response.ok` branch: `{error_code: status, error_text: statusText}`, no file. */
  function NotOk(status: int, statusText: string): Attempt {
    Attempt(Failed(Some(status), statusText), None)
  }

  /** The end of a slot: hash the data, write it under the storage root, and
      record `{file_path, file_hash}`; a failing write is caught. */
  function Store(storage: string, filePath: string, data: Bytes, p: Platform): (a: Attempt)
    ensures a.outcome.Stored? <==> p.writeFile(storage + "/" + filePath, data).None?
    ensures a.outcome.Stored? ==>
              a.outcome == Stored(filePath, p.sha256Hex(data))
              && a.write == Some(FileWrite(storage + "/" + filePath, data))
    ensures a.outcome.Failed? ==>
              a == Caught(p.writeFile(storage + "/" + filePath, data).value)
  {
    var fileHash := p.sha256Hex(data);
    match p.writeFile(storage + "/" + filePath, data)
    case Some(e) => Caught(e)
    case None => Attempt(Stored(filePath, fileHash), Some(FileWrite(storage + "/" + filePath, data)))
  }

  /** The `urls` map after the loop over `keys` has assigned each slot its outcome. */
  function Outcomes(keys: seq<string>, attempt: string -> Attempt): (m: map<string, Outcome>)
    ensures m.Keys == set k | k in keys
    ensures forall k | k in keys :: m[k] == attempt(k).outcome
    decreases |keys|
  {
    if keys == [] then map[]
    else
      var init := keys[..|keys| - 1];
      assert forall k | k in keys :: k in init || k == keys[|keys| - 1];
      Outcomes(init, attempt)[keys[|keys| - 1] := attempt(keys[|keys| - 1]).outcome]
  }

  /** The files the loop over `keys` wrote, in write order. */
  function Writes(keys: seq<string>, attempt: string -> Attempt): (ws: seq<FileWrite>)
    ensures |ws| <= |keys|
    ensures forall w | w in ws :: exists k | k in keys :: attempt(k).write == Some(w)
    ensures forall k | k in keys && attempt(k).write.Some? :: attempt(k).write.value in ws
    decreases |keys|
  {
    if keys == [] then []
    else
      var init := keys[..|keys| - 1];
      var last := keys[|keys| - 1];
      var prev := Writes(init, attempt);
      assert forall k | k in init :: k in keys;
      assert forall k | k in keys :: k in init || k == last;
      match attempt(last).write
      case Some(w) => prev + [w]
      case None => prev
  }

  /** One more iteration of the slot loop: the next slot's outcome is assigned
      into the map and its file, if any, appended to the writes. */
  lemma LoopStep(keys: seq<string>, i: nat, attempt: string -> Attempt)
    requires i < |keys|
    ensures Outcomes(keys[..i + 1], attempt) == Outcomes(keys[..i], attempt)[keys[i] := attempt(keys[i]).outcome]
    ensures Writes(keys[..i + 1], attempt)
            == Writes(keys[..i], attempt) + (if attempt(keys[i]).write.Some? then [attempt(keys[i]).write.value] else [])
  {
    assert keys[..i + 1][..i] == keys[..i];
  }

  /** The shared start of a slot looks at the feed only through its id, its
      authorization and the slot's own URL. */
  lemma FetchSlotLocal(f1: Feed, f2: Feed, key: string, secrets: seq<Secret>, p: Platform)
    requires f1.id == f2.id && f1.authorization == f2.authorization
    requires SlotUrl(f1, key) == SlotUrl(f2, key)
    ensures FetchSlot(f1, key, secrets, p) == FetchSlot(f2, key, secrets, p)
  {
    assert GetFeedSecret(f1, secrets) == GetFeedSecret(f2, secrets);
    var parsed := p.parseUrl(SlotUrl(f1, key));
    if parsed.Success? {
      var u := parsed.value;
      assert GetHeaderAuth(f1, u, secrets, p) == GetHeaderAuth(f2, u, secrets, p);
      assert GetBasicAuth(f1, u, secrets, p) == GetBasicAuth(f2, u, secrets, p);
      assert GetQueryParamAuth(f1, u, secrets) == GetQueryParamAuth(f2, u, secrets);
      assert GetPathSegmentAuth(f1, u, secrets, p) == GetPathSegmentAuth(f2, u, secrets, p);
      assert GetReplaceUrlAuth(f1, u, secrets, p) == GetReplaceUrlAuth(f2, u, secrets, p);
      assert GetAuth(f1, u, secrets, p) == GetAuth(f2, u, secrets, p);
    }
  }
}
