/**
 * What reconciling a remote memo guarantees about the store: clobber protection,
 * the fields of the merged row, convergence of the attachment set, and idempotence.
 */
module ReconcileProperties {
  import opened Wrappers
  import opened MemoLocations
  import opened MemoEntities
  import opened MemoStore
  import opened MemosPaging

  // ---------------------------------------------------------------------------
  // Upsert, the resource table after a run of insertResource calls

  lemma {:induction false} UpsertValue(t: map<string, ResourceEntity>, rs: seq<ResourceEntity>, k: string)
    requires k in Upsert(t, rs)
    ensures || (exists i :: 0 <= i < |rs| && rs[i].identifier == k && Upsert(t, rs)[k] == rs[i])
            || (k in t && Upsert(t, rs)[k] == t[k] && forall i :: 0 <= i < |rs| ==> rs[i].identifier != k)
    decreases |rs|
  {
    if rs != [] {
      var n := |rs| - 1;
      if rs[n].identifier != k {
        UpsertValue(t, rs[..n], k);
        if exists i :: 0 <= i < n && rs[..n][i].identifier == k && Upsert(t, rs[..n])[k] == rs[..n][i] {
          var i :| 0 <= i < n && rs[..n][i].identifier == k && Upsert(t, rs[..n])[k] == rs[..n][i];
          assert rs[i].identifier == k && Upsert(t, rs)[k] == rs[i];
        }
      } else {
        assert Upsert(t, rs)[k] == rs[n];
      }
    }
  }

  lemma {:induction false} UpsertHas(t: map<string, ResourceEntity>, rs: seq<ResourceEntity>, i: int)
    requires 0 <= i < |rs|
    ensures rs[i].identifier in Upsert(t, rs)
    ensures exists j :: i <= j < |rs| && rs[j].identifier == rs[i].identifier
                        && Upsert(t, rs)[rs[i].identifier] == rs[j]
    decreases |rs|
  {
    var n := |rs| - 1;
    if i < n && rs[n].identifier != rs[i].identifier {
      UpsertHas(t, rs[..n], i);
      var j :| i <= j < n && rs[..n][j].identifier == rs[i].identifier
               && Upsert(t, rs[..n])[rs[i].identifier] == rs[..n][j];
      assert rs[j] == rs[..n][j];
    } else {
      assert Upsert(t, rs)[rs[n].identifier] == rs[n];
    }
  }

  lemma {:induction false} UpsertKeepsOthers(t: map<string, ResourceEntity>, rs: seq<ResourceEntity>, k: string)
    requires k in t
    requires forall i :: 0 <= i < |rs| ==> rs[i].identifier != k
    ensures k in Upsert(t, rs) && Upsert(t, rs)[k] == t[k]
    decreases |rs|
  {
    if rs != [] {
      UpsertKeepsOthers(t, rs[..|rs| - 1], k);
    }
  }

  lemma {:induction false} UpsertBaseKeys(t: map<string, ResourceEntity>, rs: seq<ResourceEntity>)
    ensures t.Keys <= Upsert(t, rs).Keys
    decreases |rs|
  {
    if rs != [] {
      UpsertBaseKeys(t, rs[..|rs| - 1]);
    }
  }

  lemma {:induction false} UpsertNoop(t: map<string, ResourceEntity>, rs: seq<ResourceEntity>)
    requires forall i :: 0 <= i < |rs| ==> rs[i].identifier in t && t[rs[i].identifier] == rs[i]
    ensures Upsert(t, rs) == t
    decreases |rs|
  {
    if rs != [] {
      UpsertNoop(t, rs[..|rs| - 1]);
    }
  }

  lemma {:induction false} UpsertKeyed(t: map<string, ResourceEntity>, rs: seq<ResourceEntity>)
    requires forall k :: k in t ==> t[k].identifier == k
    ensures forall k :: k in Upsert(t, rs) ==> Upsert(t, rs)[k].identifier == k
    decreases |rs|
  {
    if rs != [] {
      UpsertKeyed(t, rs[..|rs| - 1]);
    }
  }

  // ---------------------------------------------------------------------------
  // Store invariants the schema does not enforce

  /** At most one memo row per `(remoteId, accountKey)` (the index is not declared unique). */
  ghost predicate MemoRemoteUnique(t: Tables) {
    forall k1, k2 :: k1 in t.memos && k2 in t.memos && t.memos[k1].remoteId.Some?
      && t.memos[k1].remoteId == t.memos[k2].remoteId && t.memos[k1].accountKey == t.memos[k2].accountKey
      ==> k1 == k2
  }

  /** At most one resource row per remote id within one memo of one account. */
  ghost predicate ResourceRemoteUnique(t: Tables) {
    forall k1, k2 :: k1 in t.resources && k2 in t.resources && t.resources[k1].remoteId.Some?
      && t.resources[k1].remoteId == t.resources[k2].remoteId
      && t.resources[k1].memoId == t.resources[k2].memoId
      && t.resources[k1].accountKey == t.resources[k2].accountKey
      ==> k1 == k2
  }

  predicate DistinctRemoteIds(rs: seq<RemoteResource>) {
    forall i, j :: 0 <= i < j < |rs| ==> rs[i].remoteId != rs[j].remoteId
  }

  /** No stored row for this remote memo has a pending local edit. */
  ghost predicate NoPendingMatch(t: Tables, remoteId: string, accountKey: string) {
    forall k :: k in t.memos && MatchesRemote(t.memos[k], remoteId, accountKey) ==> !t.memos[k].needsSync
  }

  // ---------------------------------------------------------------------------
  // Clobber protection

  /**
   * When every stored row for the remote memo has a pending edit (in particular the only
   * one, when the index is unique in practice), nothing is written and the stored row is
   * returned with all its stored resources attached.
   */
  lemma ClobberProtection(s: Tables, accountKey: string, memo: RemoteMemo, s': Tables, e: MemoEntity)
    requires KeyedByIdentifier(s)
    requires exists k :: k in s.memos && MatchesRemote(s.memos[k], memo.remoteId, accountKey)
    requires forall k :: k in s.memos && MatchesRemote(s.memos[k], memo.remoteId, accountKey) ==>
               s.memos[k].needsSync
    requires Reconciles(s, accountKey, memo, s', e)
    ensures s' == s
    ensures e.identifier in s.memos && e.Copy() == s.memos[e.identifier]
    ensures e.needsSync && MatchesRemote(e, memo.remoteId, accountKey)
    ensures IsListing(s.resources, e.identifier, accountKey, e.resources)
  {
    var existing, current :| LookupOk(s.memos, memo.remoteId, accountKey, existing)
                             && ReconcileOutcome(s, accountKey, memo, existing, current, s', e);
  }

  /** The non-pending branch of a reconciliation, with its lookup answer and listing order. */
  lemma UnpackMerge(s: Tables, accountKey: string, memo: RemoteMemo, s': Tables, e: MemoEntity)
    returns (existing: Option<MemoEntity>, current: seq<ResourceEntity>)
    requires NoPendingMatch(s, memo.remoteId, accountKey)
    requires Reconciles(s, accountKey, memo, s', e)
    ensures LookupOk(s.memos, memo.remoteId, accountKey, existing)
    ensures existing.Some? ==> !existing.value.needsSync
    ensures ReconcileOutcome(s, accountKey, memo, existing, current, s', e)
  {
    existing, current :| LookupOk(s.memos, memo.remoteId, accountKey, existing)
                         && ReconcileOutcome(s, accountKey, memo, existing, current, s', e);
  }

  // ---------------------------------------------------------------------------
  // The merged memo row

  /**
   * Without a pending edit the remote memo wins: its fields are copied, both sync flags are
   * cleared, both timestamps are `updatedAt ?: date`, the stored row's identifier is reused
   * (a fresh one is minted when there is none) and the row is upserted.
   */
  lemma RemoteFieldsWin(s: Tables, accountKey: string, memo: RemoteMemo, s': Tables, e: MemoEntity)
    requires NoPendingMatch(s, memo.remoteId, accountKey)
    requires Reconciles(s, accountKey, memo, s', e)
    ensures !e.needsSync && !e.isDeleted
    ensures MatchesRemote(e, memo.remoteId, accountKey)
    ensures e.content == memo.content && e.date == memo.date && e.visibility == memo.visibility
    ensures e.pinned == memo.pinned && e.archived == memo.archived
    ensures e.lastModified == (if memo.updatedAt.Some? then memo.updatedAt.value else memo.date)
    ensures e.lastSyncedAt == Some(e.lastModified)
    ensures (exists k :: k in s.memos && MatchesRemote(s.memos[k], memo.remoteId, accountKey)) ==>
              e.identifier in s.memos && MatchesRemote(s.memos[e.identifier], memo.remoteId, accountKey)
    ensures (forall k :: k in s.memos ==> !MatchesRemote(s.memos[k], memo.remoteId, accountKey)) ==>
              e.identifier !in s.memos
    ensures s'.memos == s.memos[e.identifier := e.Copy()]
  {
    var existing, current := UnpackMerge(s, accountKey, memo, s', e);
    OutcomeEntity(s, accountKey, memo, existing, current, s', e);
  }

  /**
   * Location columns are the remote ones, nulls included; the zoom is the stored row's
   * whenever it has one and the remote zoom otherwise. The derived location is thus the
   * remote location with that zoom.
   */
  lemma LocationMerge(s: Tables, accountKey: string, memo: RemoteMemo, s': Tables, e: MemoEntity)
    requires NoPendingMatch(s, memo.remoteId, accountKey)
    requires Reconciles(s, accountKey, memo, s', e)
    ensures memo.location.None? ==>
              e.locationPlaceholder.None? && e.locationLatitude.None? && e.locationLongitude.None?
              && e.Location().None?
    ensures memo.location.Some? ==>
              && e.locationPlaceholder == Some(memo.location.value.placeholder)
              && e.locationLatitude == Some(memo.location.value.latitude)
              && e.locationLongitude == Some(memo.location.value.longitude)
              && e.locationZoom.Some?
              && e.Location() == Some(memo.location.value.(zoom := e.locationZoom.value))
    ensures e.identifier in s.memos && s.memos[e.identifier].locationZoom.Some? ==>
              e.locationZoom == s.memos[e.identifier].locationZoom
    ensures !(e.identifier in s.memos && s.memos[e.identifier].locationZoom.Some?) ==>
              e.locationZoom == (if memo.location.Some? then Some(memo.location.value.zoom) else None)
  {
    var existing, current := UnpackMerge(s, accountKey, memo, s', e);
    OutcomeEntity(s, accountKey, memo, existing, current, s', e);
    LocationFields(s, accountKey, memo, existing, e);
  }

  /** The location columns of a merged row, given what the lookup returned. */
  lemma LocationFields(s: Tables, accountKey: string, memo: RemoteMemo, existing: Option<MemoEntity>, e: MemoEntity)
    requires e.Copy() == MergedEntity(existing, e.identifier, accountKey, memo)
    requires existing.Some? ==> e.identifier in s.memos && s.memos[e.identifier] == existing.value
    requires existing.None? ==> e.identifier !in s.memos
    ensures memo.location.None? ==>
              e.locationPlaceholder.None? && e.locationLatitude.None? && e.locationLongitude.None?
              && e.Location().None?
    ensures memo.location.Some? ==>
              && e.locationPlaceholder == Some(memo.location.value.placeholder)
              && e.locationLatitude == Some(memo.location.value.latitude)
              && e.locationLongitude == Some(memo.location.value.longitude)
              && e.locationZoom.Some?
              && e.Location() == Some(memo.location.value.(zoom := e.locationZoom.value))
    ensures e.identifier in s.memos && s.memos[e.identifier].locationZoom.Some? ==>
              e.locationZoom == s.memos[e.identifier].locationZoom
    ensures !(e.identifier in s.memos && s.memos[e.identifier].locationZoom.Some?) ==>
              e.locationZoom == (if memo.location.Some? then Some(memo.location.value.zoom) else None)
  {
  }

  // ---------------------------------------------------------------------------
  // The attachment rows

  /** The non-pending branch of one reconciliation on a well-keyed store. */
  ghost predicate Merged(s: Tables, accountKey: string, memo: RemoteMemo, existing: Option<MemoEntity>,
                         current: seq<ResourceEntity>, s': Tables, e: MemoEntity)
  {
    && KeyedByIdentifier(s)
    && !(existing.Some? && existing.value.needsSync)
    && ReconcileOutcome(s, accountKey, memo, existing, current, s', e)
  }

  /** The tables left after the deletion pass. */
  function Survivors(s: Tables, current: seq<ResourceEntity>, memo: RemoteMemo): map<string, ResourceEntity> {
    s.resources - StaleIds(current, RemoteResourceIds(memo))
  }

  /** A listed row whose remote id is still on the server survives the deletion pass. */
  lemma ListedSurvives(resources: map<string, ResourceEntity>, memoId: string, accountKey: string,
                       current: seq<ResourceEntity>, R: set<string>, x: int)
    requires IsListing(resources, memoId, accountKey, current)
    requires 0 <= x < |current| && current[x].remoteId.Some? && current[x].remoteId.value in R
    ensures current[x].identifier in resources - StaleIds(current, R)
    ensures (resources - StaleIds(current, R))[current[x].identifier] == current[x]
    ensures BelongsTo(current[x], memoId, accountKey)
  {
    forall c | c in current && IsStale(c, R) ensures c.identifier != current[x].identifier {
      var y :| 0 <= y < |current| && current[y] == c;
    }
  }

  /** A matched row is a listed row that survives the deletion pass. */
  lemma MatchSurvives(s: Tables, accountKey: string, memo: RemoteMemo, existing: Option<MemoEntity>,
                      current: seq<ResourceEntity>, s': Tables, e: MemoEntity, i: int)
    requires Merged(s, accountKey, memo, existing, current, s', e)
    requires 0 <= i < |memo.resources|
    requires FirstByRemoteId(current, memo.resources[i].remoteId).Some?
    ensures var m := FirstByRemoteId(current, memo.resources[i].remoteId).value;
      && m.identifier in Survivors(s, current, memo)
      && Survivors(s, current, memo)[m.identifier] == m
      && m in current && BelongsTo(m, e.identifier, accountKey)
      && m.remoteId == Some(memo.resources[i].remoteId)
  {
    var m := FirstByRemoteId(current, memo.resources[i].remoteId).value;
    assert memo.resources[i] in memo.resources;
    var x :| 0 <= x < |current| && current[x] == m && current[x].remoteId == Some(memo.resources[i].remoteId);
    assert IsListing(s.resources, e.identifier, accountKey, current);
    ListedSurvives(s.resources, e.identifier, accountKey, current, RemoteResourceIds(memo), x);
  }

  /** Every written row has the remote id, date, name, uri and type of its remote attachment. */
  lemma CachedRows(s: Tables, accountKey: string, memo: RemoteMemo, existing: Option<MemoEntity>,
                   current: seq<ResourceEntity>, s': Tables, e: MemoEntity)
    requires Merged(s, accountKey, memo, existing, current, s', e)
    ensures |e.resources| == |memo.resources|
    ensures forall i :: 0 <= i < |memo.resources| ==>
      && e.resources[i].remoteId == Some(memo.resources[i].remoteId)
      && BelongsTo(e.resources[i], e.identifier, accountKey)
      && e.resources[i].date == memo.resources[i].date
      && e.resources[i].filename == memo.resources[i].filename
      && e.resources[i].uri == memo.resources[i].uri
      && e.resources[i].mimeType == memo.resources[i].mimeType
  {
  }

  /** One written row: written for its remote attachment, under the memo and account. */
  lemma CachedRow(s: Tables, accountKey: string, memo: RemoteMemo, existing: Option<MemoEntity>,
                  current: seq<ResourceEntity>, s': Tables, e: MemoEntity, i: int)
    requires Merged(s, accountKey, memo, existing, current, s', e)
    requires 0 <= i < |e.resources|
    ensures |e.resources| == |memo.resources|
    ensures e.resources[i].remoteId == Some(memo.resources[i].remoteId)
    ensures BelongsTo(e.resources[i], e.identifier, accountKey)
  {
    assert CachedCorrectly(Survivors(s, current, memo), current, accountKey, e.identifier, memo.resources,
                           e.resources);
  }

  /** Two written rows under one identifier carry the same remote id. */
  lemma SameIdentifierSameRemote(s: Tables, accountKey: string, memo: RemoteMemo, existing: Option<MemoEntity>,
                                 current: seq<ResourceEntity>, s': Tables, e: MemoEntity, i: int, j: int)
    requires Merged(s, accountKey, memo, existing, current, s', e)
    requires 0 <= i < j < |e.resources|
    requires e.resources[i].identifier == e.resources[j].identifier
    ensures e.resources[i].remoteId == e.resources[j].remoteId
  {
    var cached := e.resources;
    var base := Survivors(s, current, memo);
    assert CachedCorrectly(base, current, accountKey, e.identifier, memo.resources, cached);
    var mi := FirstByRemoteId(current, memo.resources[i].remoteId);
    var mj := FirstByRemoteId(current, memo.resources[j].remoteId);
    if mj.Some? {
      MatchSurvives(s, accountKey, memo, existing, current, s', e, j);
      UpsertBaseKeys(base, cached[..i]);
      if mi.Some? {
        MatchSurvives(s, accountKey, memo, existing, current, s', e, i);
        assert mi.value.identifier == mj.value.identifier;
        assert mi.value == s.resources[mi.value.identifier] == mj.value;
      }
    } else {
      assert cached[j].identifier !in Upsert(base, cached[..j]);
      UpsertHas(base, cached[..j], i);
      assert false;
    }
  }

  /** One row in the table after the upsert pass: the memo's rows carry a remote id, the others are old. */
  lemma StoredRow(s: Tables, accountKey: string, memo: RemoteMemo, existing: Option<MemoEntity>,
                  current: seq<ResourceEntity>, s': Tables, e: MemoEntity, k: string)
    requires Merged(s, accountKey, memo, existing, current, s', e)
    requires k in s'.resources
    ensures BelongsTo(s'.resources[k], e.identifier, accountKey) ==>
              s'.resources[k].remoteId.Some? && s'.resources[k].remoteId.value in RemoteResourceIds(memo)
    ensures !BelongsTo(s'.resources[k], e.identifier, accountKey) ==>
              k in s.resources && s'.resources[k] == s.resources[k]
  {
    var cached := e.resources;
    var base := Survivors(s, current, memo);
    var R := RemoteResourceIds(memo);
    CachedRows(s, accountKey, memo, existing, current, s', e);
    UpsertValue(base, cached, k);
    if exists i :: 0 <= i < |cached| && cached[i].identifier == k && s'.resources[k] == cached[i] {
      var i :| 0 <= i < |cached| && cached[i].identifier == k && s'.resources[k] == cached[i];
      assert memo.resources[i] in memo.resources;
    } else if BelongsTo(s'.resources[k], e.identifier, accountKey) {
      assert s.resources[k] in current;
      var x :| 0 <= x < |current| && current[x] == s.resources[k];
      assert !IsStale(current[x], R);
    }
  }

  /** Each written row is stored under its identifier, as a row of the memo with its remote id. */
  lemma StoredCachedRow(s: Tables, accountKey: string, memo: RemoteMemo, existing: Option<MemoEntity>,
                        current: seq<ResourceEntity>, s': Tables, e: MemoEntity, i: int)
    requires Merged(s, accountKey, memo, existing, current, s', e)
    requires 0 <= i < |e.resources|
    ensures e.resources[i].identifier in s'.resources
    ensures BelongsTo(s'.resources[e.resources[i].identifier], e.identifier, accountKey)
    ensures s'.resources[e.resources[i].identifier].remoteId == e.resources[i].remoteId
  {
    var cached := e.resources;
    var base := Survivors(s, current, memo);
    OutcomeEntity(s, accountKey, memo, existing, current, s', e);
    UpsertHas(base, cached, i);
    var j :| i <= j < |cached| && cached[j].identifier == cached[i].identifier
             && Upsert(base, cached)[cached[i].identifier] == cached[j];
    StoredCachedRowAt(s, accountKey, memo, existing, current, s', e, i, j);
  }

  /** The row stored under the `i`-th written identifier is the `j`-th written row. */
  lemma StoredCachedRowAt(s: Tables, accountKey: string, memo: RemoteMemo, existing: Option<MemoEntity>,
                          current: seq<ResourceEntity>, s': Tables, e: MemoEntity, i: int, j: int)
    requires Merged(s, accountKey, memo, existing, current, s', e)
    requires 0 <= i <= j < |e.resources| && e.resources[j].identifier == e.resources[i].identifier
    requires e.resources[i].identifier in s'.resources
    requires s'.resources[e.resources[i].identifier] == e.resources[j]
    ensures BelongsTo(s'.resources[e.resources[i].identifier], e.identifier, accountKey)
    ensures s'.resources[e.resources[i].identifier].remoteId == e.resources[i].remoteId
  {
    CachedRow(s, accountKey, memo, existing, current, s', e, j);
    if j > i {
      SameIdentifierSameRemote(s, accountKey, memo, existing, current, s', e, i, j);
    }
  }

  /** A row of another memo or account is never overwritten by the upsert pass. */
  lemma OtherRowKept(s: Tables, accountKey: string, memo: RemoteMemo, existing: Option<MemoEntity>,
                     current: seq<ResourceEntity>, s': Tables, e: MemoEntity, k: string)
    requires Merged(s, accountKey, memo, existing, current, s', e)
    requires k in s.resources && !BelongsTo(s.resources[k], e.identifier, accountKey)
    ensures k in s'.resources && s'.resources[k] == s.resources[k]
  {
    var cached := e.resources;
    var base := Survivors(s, current, memo);
    CachedRows(s, accountKey, memo, existing, current, s', e);
    assert k !in StaleIds(current, RemoteResourceIds(memo));
    assert k in base;
    UpsertBaseKeys(base, cached);
    forall i | 0 <= i < |cached| ensures cached[i].identifier != k {
      var m := FirstByRemoteId(current, memo.resources[i].remoteId);
      if m.Some? {
        MatchSurvives(s, accountKey, memo, existing, current, s', e, i);
      } else {
        UpsertBaseKeys(base, cached[..i]);
      }
    }
    UpsertKeepsOthers(base, cached, k);
  }

  /** The rows in the table after the upsert pass, sorted by whose they are. */
  lemma StoredRows(s: Tables, accountKey: string, memo: RemoteMemo, existing: Option<MemoEntity>,
                   current: seq<ResourceEntity>, s': Tables, e: MemoEntity)
    requires Merged(s, accountKey, memo, existing, current, s', e)
    ensures forall k :: k in s'.resources && BelongsTo(s'.resources[k], e.identifier, accountKey) ==>
              s'.resources[k].remoteId.Some? && s'.resources[k].remoteId.value in RemoteResourceIds(memo)
    ensures forall i :: 0 <= i < |e.resources| ==>
              && e.resources[i].identifier in s'.resources
              && BelongsTo(s'.resources[e.resources[i].identifier], e.identifier, accountKey)
              && s'.resources[e.resources[i].identifier].remoteId == e.resources[i].remoteId
    ensures forall k :: k in s'.resources && !BelongsTo(s'.resources[k], e.identifier, accountKey) ==>
              k in s.resources && s'.resources[k] == s.resources[k]
    ensures forall k :: k in s.resources && !BelongsTo(s.resources[k], e.identifier, accountKey) ==>
              k in s'.resources && s'.resources[k] == s.resources[k]
  {
    forall k | k in s'.resources
      ensures BelongsTo(s'.resources[k], e.identifier, accountKey) ==>
                s'.resources[k].remoteId.Some? && s'.resources[k].remoteId.value in RemoteResourceIds(memo)
      ensures !BelongsTo(s'.resources[k], e.identifier, accountKey) ==>
                k in s.resources && s'.resources[k] == s.resources[k]
    {
      StoredRow(s, accountKey, memo, existing, current, s', e, k);
    }
    forall i | 0 <= i < |e.resources|
      ensures e.resources[i].identifier in s'.resources
      ensures BelongsTo(s'.resources[e.resources[i].identifier], e.identifier, accountKey)
      ensures s'.resources[e.resources[i].identifier].remoteId == e.resources[i].remoteId
    {
      StoredCachedRow(s, accountKey, memo, existing, current, s', e, i);
    }
    forall k | k in s.resources && !BelongsTo(s.resources[k], e.identifier, accountKey)
      ensures k in s'.resources && s'.resources[k] == s.resources[k]
    {
      OtherRowKept(s, accountKey, memo, existing, current, s', e, k);
    }
  }

  /** Every remote id has a row of the memo after the upsert pass. */
  lemma RemoteIdsCovered(s: Tables, accountKey: string, memo: RemoteMemo, existing: Option<MemoEntity>,
                         current: seq<ResourceEntity>, s': Tables, e: MemoEntity)
    requires Merged(s, accountKey, memo, existing, current, s', e)
    ensures forall r :: r in RemoteResourceIds(memo) ==>
              exists k :: k in s'.resources && BelongsTo(s'.resources[k], e.identifier, accountKey)
                          && s'.resources[k].remoteId == Some(r)
  {
    CachedRows(s, accountKey, memo, existing, current, s', e);
    StoredRows(s, accountKey, memo, existing, current, s', e);
    forall r | r in RemoteResourceIds(memo)
      ensures exists k :: k in s'.resources && BelongsTo(s'.resources[k], e.identifier, accountKey)
                          && s'.resources[k].remoteId == Some(r)
    {
      var x :| x in memo.resources && x.remoteId == r;
      var i :| 0 <= i < |memo.resources| && memo.resources[i] == x;
      var k := e.resources[i].identifier;
      assert k in s'.resources && BelongsTo(s'.resources[k], e.identifier, accountKey);
    }
  }

  /**
   * Attachment convergence: afterwards the memo's stored attachments carry exactly the
   * remote ids of the remote list; stale rows and rows without a remote id are gone.
   */
  lemma ResourcesConverge(s: Tables, accountKey: string, memo: RemoteMemo, s': Tables, e: MemoEntity)
    requires KeyedByIdentifier(s)
    requires NoPendingMatch(s, memo.remoteId, accountKey)
    requires Reconciles(s, accountKey, memo, s', e)
    ensures forall k :: k in s'.resources && BelongsTo(s'.resources[k], e.identifier, accountKey) ==>
              s'.resources[k].remoteId.Some? && s'.resources[k].remoteId.value in RemoteResourceIds(memo)
    ensures forall r :: r in RemoteResourceIds(memo) ==>
              exists k :: k in s'.resources && BelongsTo(s'.resources[k], e.identifier, accountKey)
                          && s'.resources[k].remoteId == Some(r)
  {
    var existing, current := UnpackMerge(s, accountKey, memo, s', e);
    StoredRows(s, accountKey, memo, existing, current, s', e);
    RemoteIdsCovered(s, accountKey, memo, existing, current, s', e);
  }

  /** The returned attachment list follows the remote list: one row each, in order, fields copied. */
  lemma ResourceRowsFollowRemote(s: Tables, accountKey: string, memo: RemoteMemo, s': Tables, e: MemoEntity)
    requires KeyedByIdentifier(s)
    requires NoPendingMatch(s, memo.remoteId, accountKey)
    requires Reconciles(s, accountKey, memo, s', e)
    ensures |e.resources| == |memo.resources|
    ensures forall i :: 0 <= i < |memo.resources| ==>
      && e.resources[i].remoteId == Some(memo.resources[i].remoteId)
      && BelongsTo(e.resources[i], e.identifier, accountKey)
      && e.resources[i].date == memo.resources[i].date
      && e.resources[i].filename == memo.resources[i].filename
      && e.resources[i].uri == memo.resources[i].uri
      && e.resources[i].mimeType == memo.resources[i].mimeType
  {
    var existing, current := UnpackMerge(s, accountKey, memo, s', e);
    CachedRows(s, accountKey, memo, existing, current, s', e);
  }

  /** The attachment rows of every other memo are neither removed, changed nor added to. */
  lemma OtherResourcesUntouched(s: Tables, accountKey: string, memo: RemoteMemo, s': Tables, e: MemoEntity)
    requires KeyedByIdentifier(s)
    requires NoPendingMatch(s, memo.remoteId, accountKey)
    requires Reconciles(s, accountKey, memo, s', e)
    ensures forall k :: k in s.resources && !BelongsTo(s.resources[k], e.identifier, accountKey) ==>
              k in s'.resources && s'.resources[k] == s.resources[k]
    ensures forall k :: k in s'.resources && !BelongsTo(s'.resources[k], e.identifier, accountKey) ==>
              k in s.resources && s'.resources[k] == s.resources[k]
  {
    var existing, current := UnpackMerge(s, accountKey, memo, s', e);
    StoredRows(s, accountKey, memo, existing, current, s', e);
  }

  /** A stored row that the deletion pass keeps: another memo's, or one whose remote id is still remote. */
  predicate Survives(r: ResourceEntity, memoId: string, accountKey: string, remoteIds: set<string>) {
    !BelongsTo(r, memoId, accountKey) || !IsStale(r, remoteIds)
  }

  /**
   * The identity of each written attachment row: a remote attachment that already had a
   * row (by remote id) keeps that row's identifier and `localUri`; any other gets no
   * `localUri` and an identifier that no surviving or earlier written row has.
   */
  lemma ResourceIdentity(s: Tables, accountKey: string, memo: RemoteMemo, s': Tables, e: MemoEntity, i: int)
    requires KeyedByIdentifier(s) && ResourceRemoteUnique(s)
    requires NoPendingMatch(s, memo.remoteId, accountKey)
    requires Reconciles(s, accountKey, memo, s', e)
    requires 0 <= i < |memo.resources|
    ensures |e.resources| == |memo.resources|
    ensures forall k :: k in s.resources && BelongsTo(s.resources[k], e.identifier, accountKey)
                        && s.resources[k].remoteId == Some(memo.resources[i].remoteId) ==>
              e.resources[i].identifier == k && e.resources[i].localUri == s.resources[k].localUri
    ensures (forall k :: k in s.resources && BelongsTo(s.resources[k], e.identifier, accountKey) ==>
               s.resources[k].remoteId != Some(memo.resources[i].remoteId)) ==>
              && e.resources[i].localUri.None?
              && (forall j :: 0 <= j < i ==> e.resources[j].identifier != e.resources[i].identifier)
              && (forall k :: k in s.resources && Survives(s.resources[k], e.identifier, accountKey,
                                                           RemoteResourceIds(memo)) ==>
                    k != e.resources[i].identifier)
  {
    var existing, current := UnpackMerge(s, accountKey, memo, s', e);
    var cached := e.resources;
    var base := Survivors(s, current, memo);
    var R := RemoteResourceIds(memo);
    assert CachedCorrectly(base, current, accountKey, e.identifier, memo.resources, cached);
    var m := FirstByRemoteId(current, memo.resources[i].remoteId);
    if m.Some? {
      MatchSurvives(s, accountKey, memo, existing, current, s', e, i);
    } else {
      forall j | 0 <= j < i ensures cached[j].identifier != cached[i].identifier {
        UpsertHas(base, cached[..i], j);
      }
      forall k | k in s.resources && Survives(s.resources[k], e.identifier, accountKey, R)
        ensures k != cached[i].identifier
      {
        UpsertBaseKeys(base, cached[..i]);
      }
      forall k | k in s.resources && BelongsTo(s.resources[k], e.identifier, accountKey)
        ensures s.resources[k].remoteId != Some(memo.resources[i].remoteId)
      {
        assert s.resources[k] in current;
      }
    }
  }

  // ---------------------------------------------------------------------------
  // Invariants kept, and idempotence

  /** Reconciling keeps every row under its own primary key. */
  lemma ReconcileKeepsKeyed(s: Tables, accountKey: string, memo: RemoteMemo, s': Tables, e: MemoEntity)
    requires KeyedByIdentifier(s)
    requires Reconciles(s, accountKey, memo, s', e)
    ensures KeyedByIdentifier(s')
  {
    var existing, current :| LookupOk(s.memos, memo.remoteId, accountKey, existing)
                             && ReconcileOutcome(s, accountKey, memo, existing, current, s', e);
    if !(existing.Some? && existing.value.needsSync) {
      MergedKeepsKeyed(s, accountKey, memo, existing, current, s', e);
    }
  }

  /** The non-pending branch writes the memo row under its identifier and upserts resources by key. */
  lemma MergedKeepsKeyed(s: Tables, accountKey: string, memo: RemoteMemo, existing: Option<MemoEntity>,
                         current: seq<ResourceEntity>, s': Tables, e: MemoEntity)
    requires Merged(s, accountKey, memo, existing, current, s', e)
    ensures KeyedByIdentifier(s')
  {
    var base := Survivors(s, current, memo);
    assert forall k :: k in base ==> base[k].identifier == k;
    UpsertKeyed(base, e.resources);
    assert s'.memos == s.memos[e.identifier := e.Copy()];
  }

  /** With unique remote ids per memo, every stored row of the memo is one of the written rows. */
  lemma GroupIsWritten(s: Tables, accountKey: string, memo: RemoteMemo, existing: Option<MemoEntity>,
                       current: seq<ResourceEntity>, s': Tables, e: MemoEntity, k: string)
    requires Merged(s, accountKey, memo, existing, current, s', e)
    requires ResourceRemoteUnique(s)
    requires k in s'.resources && BelongsTo(s'.resources[k], e.identifier, accountKey)
    ensures exists i :: 0 <= i < |e.resources| && e.resources[i].identifier == k && s'.resources[k] == e.resources[i]
  {
    var cached := e.resources;
    var base := Survivors(s, current, memo);
    var R := RemoteResourceIds(memo);
    UpsertValue(base, cached, k);
  }

  /** With distinct remote ids, each written row is what ends up under its identifier. */
  lemma WrittenRowsStored(s: Tables, accountKey: string, memo: RemoteMemo, existing: Option<MemoEntity>,
                          current: seq<ResourceEntity>, s': Tables, e: MemoEntity, i: int)
    requires Merged(s, accountKey, memo, existing, current, s', e)
    requires DistinctRemoteIds(memo.resources)
    requires 0 <= i < |e.resources|
    ensures e.resources[i].identifier in s'.resources && s'.resources[e.resources[i].identifier] == e.resources[i]
  {
    var cached := e.resources;
    UpsertHas(Survivors(s, current, memo), cached, i);
    var j :| i <= j < |cached| && cached[j].identifier == cached[i].identifier
             && s'.resources[cached[i].identifier] == cached[j];
    if j > i {
      SameIdentifierSameRemote(s, accountKey, memo, existing, current, s', e, i, j);
    }
  }

  /** The memo table keeps at most one row per remote memo and account. */
  lemma MemoRowsStayUnique(s: Tables, accountKey: string, memo: RemoteMemo, existing: Option<MemoEntity>,
                           current: seq<ResourceEntity>, s': Tables, e: MemoEntity)
    requires Merged(s, accountKey, memo, existing, current, s', e)
    requires LookupOk(s.memos, memo.remoteId, accountKey, existing)
    requires MemoRemoteUnique(s)
    ensures MemoRemoteUnique(s')
  {
    var id := e.identifier;
    forall k1, k2 | k1 in s'.memos && k2 in s'.memos && s'.memos[k1].remoteId.Some?
      && s'.memos[k1].remoteId == s'.memos[k2].remoteId && s'.memos[k1].accountKey == s'.memos[k2].accountKey
      ensures k1 == k2
    {
      if k1 == id && k2 != id {
        assert MatchesRemote(s.memos[k2], memo.remoteId, accountKey);
      }
    }
  }

  /** Two written rows with one remote id were written for one remote attachment. */
  lemma WrittenSameRemote(s: Tables, accountKey: string, memo: RemoteMemo, existing: Option<MemoEntity>,
                          current: seq<ResourceEntity>, s': Tables, e: MemoEntity, i: int, j: int)
    requires Merged(s, accountKey, memo, existing, current, s', e)
    requires DistinctRemoteIds(memo.resources)
    requires 0 <= i < |e.resources| && 0 <= j < |e.resources|
    requires e.resources[i].remoteId == e.resources[j].remoteId
    ensures e.resources[i].identifier == e.resources[j].identifier
  {
    CachedRows(s, accountKey, memo, existing, current, s', e);
    assert memo.resources[i].remoteId == memo.resources[j].remoteId;
  }

  /** Two rows with one remote id, memo and account after the upsert pass are one row. */
  lemma ResourcePairUnique(s: Tables, accountKey: string, memo: RemoteMemo, existing: Option<MemoEntity>,
                           current: seq<ResourceEntity>, s': Tables, e: MemoEntity, k1: string, k2: string)
    requires Merged(s, accountKey, memo, existing, current, s', e)
    requires ResourceRemoteUnique(s)
    requires DistinctRemoteIds(memo.resources)
    requires k1 in s'.resources && k2 in s'.resources && s'.resources[k1].remoteId.Some?
    requires s'.resources[k1].remoteId == s'.resources[k2].remoteId
    requires s'.resources[k1].memoId == s'.resources[k2].memoId
    requires s'.resources[k1].accountKey == s'.resources[k2].accountKey
    ensures k1 == k2
  {
    if BelongsTo(s'.resources[k1], e.identifier, accountKey) {
      GroupIsWritten(s, accountKey, memo, existing, current, s', e, k1);
      GroupIsWritten(s, accountKey, memo, existing, current, s', e, k2);
      var i :| 0 <= i < |e.resources| && e.resources[i].identifier == k1 && s'.resources[k1] == e.resources[i];
      var j :| 0 <= j < |e.resources| && e.resources[j].identifier == k2 && s'.resources[k2] == e.resources[j];
      WrittenSameRemote(s, accountKey, memo, existing, current, s', e, i, j);
    } else {
      StoredRow(s, accountKey, memo, existing, current, s', e, k1);
      StoredRow(s, accountKey, memo, existing, current, s', e, k2);
    }
  }

  /** The resource table keeps at most one row per remote id within a memo. */
  lemma ResourceRowsStayUnique(s: Tables, accountKey: string, memo: RemoteMemo, existing: Option<MemoEntity>,
                               current: seq<ResourceEntity>, s': Tables, e: MemoEntity)
    requires Merged(s, accountKey, memo, existing, current, s', e)
    requires ResourceRemoteUnique(s)
    requires DistinctRemoteIds(memo.resources)
    ensures ResourceRemoteUnique(s')
  {
    forall k1, k2 | k1 in s'.resources && k2 in s'.resources && s'.resources[k1].remoteId.Some?
      && s'.resources[k1].remoteId == s'.resources[k2].remoteId
      && s'.resources[k1].memoId == s'.resources[k2].memoId
      && s'.resources[k1].accountKey == s'.resources[k2].accountKey
      ensures k1 == k2
    {
      ResourcePairUnique(s, accountKey, memo, existing, current, s', e, k1, k2);
    }
  }

  /**
   * Reconciling keeps both uniqueness invariants, provided the remote memo does not list
   * one remote attachment id twice.
   */
  lemma ReconcileKeepsUnique(s: Tables, accountKey: string, memo: RemoteMemo, s': Tables, e: MemoEntity)
    requires KeyedByIdentifier(s) && MemoRemoteUnique(s) && ResourceRemoteUnique(s)
    requires DistinctRemoteIds(memo.resources)
    requires Reconciles(s, accountKey, memo, s', e)
    ensures KeyedByIdentifier(s') && MemoRemoteUnique(s') && ResourceRemoteUnique(s')
  {
    ReconcileKeepsKeyed(s, accountKey, memo, s', e);
    var existing, current :| LookupOk(s.memos, memo.remoteId, accountKey, existing)
                             && ReconcileOutcome(s, accountKey, memo, existing, current, s', e);
    if !(existing.Some? && existing.value.needsSync) {
      MemoRowsStayUnique(s, accountKey, memo, existing, current, s', e);
      ResourceRowsStayUnique(s, accountKey, memo, existing, current, s', e);
    }
  }

  /** Reconciling the row just written again changes nothing in the row. */
  lemma MergeIdempotent(existing: Option<MemoEntity>, localId: string, accountKey: string, memo: RemoteMemo)
    ensures var row := MergedEntity(existing, localId, accountKey, memo);
      MergedEntity(Some(row), localId, accountKey, memo) == row
  {
  }

  /** After a reconciliation, the lookup for the same remote memo finds the row just written. */
  lemma LookupFindsWrittenRow(s0: Tables, accountKey: string, memo: RemoteMemo, s1: Tables, e1: MemoEntity,
                              existing: Option<MemoEntity>)
    requires KeyedByIdentifier(s0) && MemoRemoteUnique(s0) && ResourceRemoteUnique(s0)
    requires NoPendingMatch(s0, memo.remoteId, accountKey)
    requires DistinctRemoteIds(memo.resources)
    requires Reconciles(s0, accountKey, memo, s1, e1)
    requires LookupOk(s1.memos, memo.remoteId, accountKey, existing)
    ensures existing == Some(e1.Copy())
    ensures !e1.needsSync
  {
    var ex1, cur1 := UnpackMerge(s0, accountKey, memo, s1, e1);
    OutcomeEntity(s0, accountKey, memo, ex1, cur1, s1, e1);
    ReconcileKeepsUnique(s0, accountKey, memo, s1, e1);
    assert s1.memos[e1.identifier] == e1.Copy();
  }

  /** A listing whose rows all carry a remote id of `R` has nothing stale. */
  lemma NoneStale(resources: map<string, ResourceEntity>, memoId: string, accountKey: string,
                  rs: seq<ResourceEntity>, R: set<string>)
    requires IsListing(resources, memoId, accountKey, rs)
    requires forall k :: k in resources && BelongsTo(resources[k], memoId, accountKey) ==>
               resources[k].remoteId.Some? && resources[k].remoteId.value in R
    ensures StaleIds(rs, R) == {}
  {
    forall c | c in rs ensures !IsStale(c, R) {
      var x :| 0 <= x < |rs| && rs[x] == c;
    }
  }

  /** The second deletion pass finds nothing stale: every listed row survives. */
  lemma NothingStaleTwice(s0: Tables, accountKey: string, memo: RemoteMemo, ex1: Option<MemoEntity>,
                          cur1: seq<ResourceEntity>, s1: Tables, e1: MemoEntity,
                          ex2: Option<MemoEntity>, cur2: seq<ResourceEntity>, s2: Tables, e2: MemoEntity)
    requires Merged(s0, accountKey, memo, ex1, cur1, s1, e1)
    requires Merged(s1, accountKey, memo, ex2, cur2, s2, e2)
    requires e2.identifier == e1.identifier
    ensures Survivors(s1, cur2, memo) == s1.resources
  {
    var R := RemoteResourceIds(memo);
    assert IsListing(s1.resources, e1.identifier, accountKey, cur2);
    forall k | k in s1.resources && BelongsTo(s1.resources[k], e1.identifier, accountKey)
      ensures s1.resources[k].remoteId.Some? && s1.resources[k].remoteId.value in R
    {
      StoredRow(s0, accountKey, memo, ex1, cur1, s1, e1, k);
    }
    NoneStale(s1.resources, e1.identifier, accountKey, cur2, R);
  }

  /** The second pass matches every remote attachment to the row written for it the first time. */
  lemma RowsMatchedTwice(s0: Tables, accountKey: string, memo: RemoteMemo, ex1: Option<MemoEntity>,
                         cur1: seq<ResourceEntity>, s1: Tables, e1: MemoEntity,
                         ex2: Option<MemoEntity>, cur2: seq<ResourceEntity>, s2: Tables, e2: MemoEntity)
    requires Merged(s0, accountKey, memo, ex1, cur1, s1, e1)
    requires Merged(s1, accountKey, memo, ex2, cur2, s2, e2)
    requires e2.identifier == e1.identifier
    requires ResourceRemoteUnique(s1)
    requires DistinctRemoteIds(memo.resources)
    ensures e2.resources == e1.resources
  {
    var cached := e1.resources;
    CachedRows(s0, accountKey, memo, ex1, cur1, s1, e1);
    CachedRows(s1, accountKey, memo, ex2, cur2, s2, e2);
    NothingStaleTwice(s0, accountKey, memo, ex1, cur1, s1, e1, ex2, cur2, s2, e2);
    forall i | 0 <= i < |memo.resources|
      ensures e2.resources[i] == cached[i]
    {
      WrittenRowsStored(s0, accountKey, memo, ex1, cur1, s1, e1, i);
      assert cached[i] in cur2;
      var m := FirstByRemoteId(cur2, memo.resources[i].remoteId);
      assert m.Some?;
      MatchSurvives(s1, accountKey, memo, ex2, cur2, s2, e2, i);
    }
  }

  /** The second upsert pass rewrites every row with itself. */
  lemma ResourcesUnchangedTwice(s0: Tables, accountKey: string, memo: RemoteMemo, ex1: Option<MemoEntity>,
                                cur1: seq<ResourceEntity>, s1: Tables, e1: MemoEntity,
                                ex2: Option<MemoEntity>, cur2: seq<ResourceEntity>, s2: Tables, e2: MemoEntity)
    requires Merged(s0, accountKey, memo, ex1, cur1, s1, e1)
    requires Merged(s1, accountKey, memo, ex2, cur2, s2, e2)
    requires e2.identifier == e1.identifier
    requires ResourceRemoteUnique(s1)
    requires DistinctRemoteIds(memo.resources)
    ensures s2.resources == s1.resources && e2.resources == e1.resources
  {
    RowsMatchedTwice(s0, accountKey, memo, ex1, cur1, s1, e1, ex2, cur2, s2, e2);
    NothingStaleTwice(s0, accountKey, memo, ex1, cur1, s1, e1, ex2, cur2, s2, e2);
    forall i | 0 <= i < |e1.resources|
      ensures e1.resources[i].identifier in s1.resources && s1.resources[e1.resources[i].identifier] == e1.resources[i]
    {
      WrittenRowsStored(s0, accountKey, memo, ex1, cur1, s1, e1, i);
    }
    UpsertNoop(s1.resources, e1.resources);
  }

  /** The second reconciliation looks up the row the first one wrote. */
  lemma SecondPassLookup(s0: Tables, accountKey: string, memo: RemoteMemo, s1: Tables, e1: MemoEntity,
                         s2: Tables, e2: MemoEntity)
    returns (ex2: Option<MemoEntity>, cur2: seq<ResourceEntity>)
    requires KeyedByIdentifier(s0) && MemoRemoteUnique(s0) && ResourceRemoteUnique(s0)
    requires NoPendingMatch(s0, memo.remoteId, accountKey)
    requires DistinctRemoteIds(memo.resources)
    requires Reconciles(s0, accountKey, memo, s1, e1)
    requires Reconciles(s1, accountKey, memo, s2, e2)
    ensures ex2 == Some(e1.Copy()) && !e1.needsSync
    ensures ReconcileOutcome(s1, accountKey, memo, ex2, cur2, s2, e2)
  {
    ex2, cur2 :| LookupOk(s1.memos, memo.remoteId, accountKey, ex2)
                 && ReconcileOutcome(s1, accountKey, memo, ex2, cur2, s2, e2);
    LookupFindsWrittenRow(s0, accountKey, memo, s1, e1, ex2);
  }

  /** A run that finds a clean row it would write unchanged keeps the memo table and that row. */
  lemma SecondRowSame(s1: Tables, accountKey: string, memo: RemoteMemo, row: MemoEntity,
                      cur2: seq<ResourceEntity>, s2: Tables, e2: MemoEntity)
    requires ReconcileOutcome(s1, accountKey, memo, Some(row), cur2, s2, e2)
    requires !row.needsSync
    requires row.identifier in s1.memos && s1.memos[row.identifier] == row
    requires MergedEntity(Some(row), row.identifier, accountKey, memo) == row
    ensures e2.identifier == row.identifier && e2.Copy() == row && s2.memos == s1.memos
  {
    OutcomeEntity(s1, accountKey, memo, Some(row), cur2, s2, e2);
  }

  /** The second reconciliation takes the non-pending branch on the row the first one wrote. */
  lemma SecondPassMerges(s0: Tables, accountKey: string, memo: RemoteMemo, ex1: Option<MemoEntity>,
                         cur1: seq<ResourceEntity>, s1: Tables, e1: MemoEntity, s2: Tables, e2: MemoEntity)
    returns (ex2: Option<MemoEntity>, cur2: seq<ResourceEntity>)
    requires KeyedByIdentifier(s0) && MemoRemoteUnique(s0) && ResourceRemoteUnique(s0)
    requires NoPendingMatch(s0, memo.remoteId, accountKey)
    requires DistinctRemoteIds(memo.resources)
    requires LookupOk(s0.memos, memo.remoteId, accountKey, ex1)
    requires Merged(s0, accountKey, memo, ex1, cur1, s1, e1)
    requires Reconciles(s1, accountKey, memo, s2, e2)
    ensures Merged(s1, accountKey, memo, ex2, cur2, s2, e2)
    ensures e2.identifier == e1.identifier && e2.Copy() == e1.Copy() && s2.memos == s1.memos
  {
    assert Reconciles(s0, accountKey, memo, s1, e1);
    ReconcileKeepsKeyed(s0, accountKey, memo, s1, e1);
    ex2, cur2 := SecondPassLookup(s0, accountKey, memo, s1, e1, s2, e2);
    var row := e1.Copy();
    OutcomeEntity(s0, accountKey, memo, ex1, cur1, s1, e1);
    MergeIdempotent(ex1, e1.identifier, accountKey, memo);
    SecondRowSame(s1, accountKey, memo, row, cur2, s2, e2);
  }

  /**
   * Idempotence: reconciling the same remote memo twice with no local edit in between
   * leaves the store as the first run left it, and returns the same entity. It relies on
   * upserts by primary key, on the store holding at most one row per remote id (memo per
   * account, attachment per memo) and on the remote list naming each attachment once.
   */
  lemma ReconcileIdempotent(s0: Tables, accountKey: string, memo: RemoteMemo,
                            s1: Tables, e1: MemoEntity, s2: Tables, e2: MemoEntity)
    requires KeyedByIdentifier(s0) && MemoRemoteUnique(s0) && ResourceRemoteUnique(s0)
    requires NoPendingMatch(s0, memo.remoteId, accountKey)
    requires DistinctRemoteIds(memo.resources)
    requires Reconciles(s0, accountKey, memo, s1, e1)
    requires Reconciles(s1, accountKey, memo, s2, e2)
    ensures s2 == s1 && e2 == e1
  {
    var ex1, cur1 := UnpackMerge(s0, accountKey, memo, s1, e1);
    ReconcileKeepsUnique(s0, accountKey, memo, s1, e1);
    var ex2, cur2 := SecondPassMerges(s0, accountKey, memo, ex1, cur1, s1, e1, s2, e2);
    ResourcesUnchangedTwice(s0, accountKey, memo, ex1, cur1, s1, e1, ex2, cur2, s2, e2);
    CopyAndResourcesDetermine(e2, e1);
  }

  // ---------------------------------------------------------------------------
  // A whole page

  /** The entity one run returns, in each branch. */
  lemma OutcomeEntity(s: Tables, accountKey: string, memo: RemoteMemo, existing: Option<MemoEntity>,
                      current: seq<ResourceEntity>, s': Tables, e: MemoEntity)
    requires ReconcileOutcome(s, accountKey, memo, existing, current, s', e)
    ensures existing.Some? && existing.value.needsSync ==> e == existing.value.Copy().WithResources(current)
    ensures !(existing.Some? && existing.value.needsSync) ==>
              && e.Copy() == MergedEntity(existing, e.identifier, accountKey, memo)
              && s'.memos == s.memos[e.identifier := e.Copy()]
              && s'.resources == Upsert(s.resources - StaleIds(current, RemoteResourceIds(memo)), e.resources)
              && (existing.Some? ==> e.identifier == existing.value.identifier)
  {
  }

  /** Whichever branch is taken, the returned entity is the remote memo's, under the account. */
  lemma ReconcileMatchesRemote(s: Tables, accountKey: string, memo: RemoteMemo, s': Tables, e: MemoEntity)
    requires Reconciles(s, accountKey, memo, s', e)
    ensures MatchesRemote(e, memo.remoteId, accountKey)
  {
    var existing, current :| LookupOk(s.memos, memo.remoteId, accountKey, existing)
                             && ReconcileOutcome(s, accountKey, memo, existing, current, s', e);
    OutcomeMatches(s, accountKey, memo, existing, current, s', e);
  }

  lemma OutcomeMatches(s: Tables, accountKey: string, memo: RemoteMemo, existing: Option<MemoEntity>,
                       current: seq<ResourceEntity>, s': Tables, e: MemoEntity)
    requires LookupOk(s.memos, memo.remoteId, accountKey, existing)
    requires ReconcileOutcome(s, accountKey, memo, existing, current, s', e)
    ensures MatchesRemote(e, memo.remoteId, accountKey)
  {
    OutcomeEntity(s, accountKey, memo, existing, current, s', e);
    if existing.Some? && existing.value.needsSync {
      assert e.remoteId == existing.value.remoteId && e.accountKey == existing.value.accountKey;
    } else {
      assert e.remoteId == e.Copy().remoteId && e.accountKey == e.Copy().accountKey;
    }
  }

  /**
   * A loaded page holds one entity per remote memo, in the remote order, each the entity of
   * that remote memo under the account, and the store stays keyed by identifier.
   */
  lemma {:induction false} PageFollowsRemote(s: Tables, accountKey: string, memos: seq<RemoteMemo>,
                                             s': Tables, es: seq<MemoEntity>)
    requires KeyedByIdentifier(s)
    requires ReconcilesAll(s, accountKey, memos, s', es)
    ensures KeyedByIdentifier(s')
    ensures |es| == |memos|
    ensures forall i :: 0 <= i < |memos| ==> MatchesRemote(es[i], memos[i].remoteId, accountKey)
    decreases |memos|
  {
    if memos != [] {
      var n := |memos| - 1;
      var mid :| ReconcilesAll(s, accountKey, memos[..n], mid, es[..n])
                 && Reconciles(mid, accountKey, memos[n], s', es[n]);
      PageFollowsRemote(s, accountKey, memos[..n], mid, es[..n]);
      ReconcileKeepsKeyed(mid, accountKey, memos[n], s', es[n]);
      ReconcileMatchesRemote(mid, accountKey, memos[n], s', es[n]);
      forall i | 0 <= i < n ensures MatchesRemote(es[i], memos[i].remoteId, accountKey) {
        assert es[..n][i] == es[i] && memos[..n][i] == memos[i];
      }
    }
  }
}
