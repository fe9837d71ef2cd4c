/**
 * The remote-backed page loader and the reconciler that merges each remote memo into
 * the local store (`MemosPagingSource`).
 */
module MemosPaging {
  import opened Wrappers
  import opened MemoLocations
  import opened MemoEntities
  import opened MemoStore

  /** `MEMOS_PAGE_SIZE`. */
  const MEMOS_PAGE_SIZE: nat := 10

  /** An attachment as the remote service reports it. */
  datatype RemoteResource = RemoteResource(remoteId: string, date: int, filename: string, uri: string,
                                           mimeType: Option<string>)

  /** A memo as the remote service reports it. */
  datatype RemoteMemo = RemoteMemo(
    remoteId: string,
    content: string,
    date: int,
    updatedAt: Option<int>,
    visibility: MemoVisibility,
    pinned: bool,
    archived: bool,
    location: Option<MemoLocation>,
    resources: seq<RemoteResource>)

  /** `memo.updatedAt ?: memo.date`. */
  function RemoteUpdatedAt(memo: RemoteMemo): int {
    memo.updatedAt.GetOr(memo.date)
  }

  /**
   * The row written for a remote memo that has no pending local edit: remote fields,
   * both sync flags cleared, the location columns copied (nulls included), and the zoom
   * kept from the existing row whenever that row has one.
   */
  function MergedEntity(existing: Option<MemoEntity>, localId: string, accountKey: string,
                        memo: RemoteMemo): MemoEntity
  {
    var remoteZoom := if memo.location.Some? then Some(memo.location.value.zoom) else None;
    MemoEntity(
      identifier := localId,
      remoteId := Some(memo.remoteId),
      accountKey := accountKey,
      content := memo.content,
      date := memo.date,
      visibility := memo.visibility,
      pinned := memo.pinned,
      archived := memo.archived,
      needsSync := false,
      isDeleted := false,
      lastModified := RemoteUpdatedAt(memo),
      lastSyncedAt := Some(RemoteUpdatedAt(memo)),
      locationPlaceholder := if memo.location.Some? then Some(memo.location.value.placeholder) else None,
      locationLatitude := if memo.location.Some? then Some(memo.location.value.latitude) else None,
      locationLongitude := if memo.location.Some? then Some(memo.location.value.longitude) else None,
      locationZoom := if existing.Some? && existing.value.locationZoom.Some? then existing.value.locationZoom
                      else remoteZoom,
      resources := [])
  }

  /** The remote ids of the memo's attachments, as a set. */
  function RemoteResourceIds(memo: RemoteMemo): set<string> {
    set r | r in memo.resources :: r.remoteId
  }

  /** `currentResource.remoteId !in remoteResourceIds`: a null remote id is never in the set. */
  predicate IsStale(r: ResourceEntity, remoteIds: set<string>) {
    r.remoteId.None? || r.remoteId.value !in remoteIds
  }

  /** Identifiers of the listed rows that the deletion pass removes. */
  function StaleIds(current: seq<ResourceEntity>, remoteIds: set<string>): set<string> {
    set r | r in current && IsStale(r, remoteIds) :: r.identifier
  }

  /** `currentResources.firstOrNull { it.remoteId == remoteId }`. */
  function FirstByRemoteId(current: seq<ResourceEntity>, remoteId: string): (r: Option<ResourceEntity>)
    ensures r.None? <==> forall i :: 0 <= i < |current| ==> current[i].remoteId != Some(remoteId)
    ensures r.Some? ==> exists i :: 0 <= i < |current| && current[i] == r.value
                          && current[i].remoteId == Some(remoteId)
                          && forall j :: 0 <= j < i ==> current[j].remoteId != Some(remoteId)
  {
    if current == [] then None
    else if current[0].remoteId == Some(remoteId) then Some(current[0])
    else
      var r := FirstByRemoteId(current[1..], remoteId);
      if r.Some? then
        ghost var i :| 0 <= i < |current[1..]| && current[1..][i] == r.value
                         && current[1..][i].remoteId == Some(remoteId)
                         && forall j :: 0 <= j < i ==> current[1..][j].remoteId != Some(remoteId);
        assert current[i + 1] == r.value;
        r
      else r
  }

  /**
   * The row written for one remote attachment: the matched row's identifier and
   * `localUri` when there is a match, `freshId` and no `localUri` otherwise.
   */
  function CachedResource(existing: Option<ResourceEntity>, freshId: string, accountKey: string,
                          memoId: string, resource: RemoteResource): ResourceEntity
  {
    ResourceEntity(
      identifier := if existing.Some? then existing.value.identifier else freshId,
      remoteId := Some(resource.remoteId),
      accountKey := accountKey,
      date := resource.date,
      filename := resource.filename,
      uri := resource.uri,
      localUri := if existing.Some? then existing.value.localUri else None,
      mimeType := resource.mimeType,
      memoId := Some(memoId))
  }

  /** The resource table after upserting `rs` one after the other. */
  function Upsert(t: map<string, ResourceEntity>, rs: seq<ResourceEntity>): (u: map<string, ResourceEntity>)
    decreases |rs|
  {
    if rs == [] then t
    else Upsert(t, rs[..|rs| - 1])[rs[|rs| - 1].identifier := rs[|rs| - 1]]
  }

  /**
   * `cached` is what the upsert pass produces from `remote`: one row per remote
   * attachment, in order, each built by CachedResource from the first listed row with
   * the same remote id; an unmatched one gets an identifier not in the table at the
   * moment it is minted.
   */
  ghost predicate CachedCorrectly(base: map<string, ResourceEntity>, current: seq<ResourceEntity>,
                                  accountKey: string, memoId: string,
                                  remote: seq<RemoteResource>, cached: seq<ResourceEntity>)
  {
    && |cached| == |remote|
    && forall i :: 0 <= i < |remote| ==>
         && cached[i] == CachedResource(FirstByRemoteId(current, remote[i].remoteId), cached[i].identifier,
                                        accountKey, memoId, remote[i])
         && (FirstByRemoteId(current, remote[i].remoteId).None? ==>
               cached[i].identifier !in Upsert(base, cached[..i]))
  }

  /** Writing one more row for the next remote attachment keeps `CachedCorrectly`. */
  lemma CachedCorrectlyStep(base: map<string, ResourceEntity>, current: seq<ResourceEntity>, accountKey: string,
                            memoId: string, remote: seq<RemoteResource>, cached: seq<ResourceEntity>,
                            r: RemoteResource, row: ResourceEntity)
    requires CachedCorrectly(base, current, accountKey, memoId, remote, cached)
    requires row == CachedResource(FirstByRemoteId(current, r.remoteId), row.identifier, accountKey, memoId, r)
    requires FirstByRemoteId(current, r.remoteId).None? ==> row.identifier !in Upsert(base, cached)
    ensures CachedCorrectly(base, current, accountKey, memoId, remote + [r], cached + [row])
  {
    var cached' := cached + [row];
    assert cached'[..|cached|] == cached;
    forall i | 0 <= i < |cached| ensures cached'[..i] == cached[..i] {
    }
  }

  /**
   * One run of `convertAndCache` on tables `s`, given the row the lookup returned
   * (`existing`) and the order in which the store listed the memo's resources
   * (`current`), ends in tables `s'` and returns `e`.
   */
  ghost predicate ReconcileOutcome(s: Tables, accountKey: string, memo: RemoteMemo,
                                   existing: Option<MemoEntity>, current: seq<ResourceEntity>,
                                   s': Tables, e: MemoEntity)
  {
    if existing.Some? && existing.value.needsSync then
      // pending local edit: nothing is written, the stored row is returned with its resources
      && IsListing(s.resources, existing.value.identifier, accountKey, current)
      && s' == s
      && e == existing.value.Copy().WithResources(current)
    else
      var localId := e.identifier;
      var row := MergedEntity(existing, localId, accountKey, memo);
      var base := s.resources - StaleIds(current, RemoteResourceIds(memo));
      && (existing.Some? ==> localId == existing.value.identifier)
      && (existing.None? ==> localId !in s.memos)
      && IsListing(s.resources, localId, accountKey, current)
      && e.Copy() == row
      && s'.memos == s.memos[localId := row]
      && CachedCorrectly(base, current, accountKey, localId, memo.resources, e.resources)
      && s'.resources == Upsert(base, e.resources)
  }

  /** Some lookup answer and some listing order lead from `s` to `s'` and `e`. */
  ghost predicate Reconciles(s: Tables, accountKey: string, memo: RemoteMemo, s': Tables, e: MemoEntity) {
    exists existing: Option<MemoEntity>, current: seq<ResourceEntity> ::
      LookupOk(s.memos, memo.remoteId, accountKey, existing)
      && ReconcileOutcome(s, accountKey, memo, existing, current, s', e)
  }

  /** Reconciling `memos` in order leads from `s` to `s'` and yields `es`. */
  ghost predicate ReconcilesAll(s: Tables, accountKey: string, memos: seq<RemoteMemo>, s': Tables,
                                es: seq<MemoEntity>)
    decreases |memos|, 0
  {
    if memos == [] then es == [] && s' == s
    else
      && |es| == |memos|
      && ReconcilesThen(s, accountKey, memos[..|memos| - 1], es[..|es| - 1], memos[|memos| - 1], es[|es| - 1], s')
  }

  /** Some intermediate tables connect reconciling `init` and then `last`. */
  ghost predicate ReconcilesThen(s: Tables, accountKey: string, init: seq<RemoteMemo>, esInit: seq<MemoEntity>,
                                 last: RemoteMemo, eLast: MemoEntity, s': Tables)
    decreases |init|, 1
  {
    exists mid: Tables ::
      ReconcilesAll(s, accountKey, init, mid, esInit) && Reconciles(mid, accountKey, last, s', eLast)
  }

  /** Reconciling one more memo after a run extends the run. */
  lemma ReconcilesAllStep(s: Tables, accountKey: string, memos: seq<RemoteMemo>, i: nat, mid: Tables,
                          es: seq<MemoEntity>, s': Tables, e: MemoEntity)
    requires i < |memos|
    requires ReconcilesAll(s, accountKey, memos[..i], mid, es)
    requires Reconciles(mid, accountKey, memos[i], s', e)
    ensures ReconcilesAll(s, accountKey, memos[..i + 1], s', es + [e])
  {
    var all, es' := memos[..i + 1], es + [e];
    assert all[..|all| - 1] == memos[..i] && all[|all| - 1] == memos[i];
    assert es'[..|es'| - 1] == es && es'[|es'| - 1] == e;
    assert ReconcilesThen(s, accountKey, memos[..i], es, memos[i], e, s');
    assert |es| == i by {
      if i > 0 {
        assert memos[..i] != [];
      }
    }
  }

  /** `LoadParams<String>`: the page key (the opaque token) and the requested size. */
  datatype LoadParams = LoadParams(key: Option<string>, loadSize: nat)

  /** The arguments of `remoteRepository.listMemosPaged`. */
  datatype PageRequest = PageRequest(pageSize: nat, pageToken: Option<string>, filter: Option<string>,
                                     orderBy: Option<string>)

  /** The remote answer: a page of memos and the next token, or a failure. */
  datatype RemoteResponse =
    | ResponseSuccess(memos: seq<RemoteMemo>, nextPageToken: Option<string>)
    | ResponseFailure(message: string)

  datatype LoadResult =
    | Page(data: seq<MemoEntity>, prevKey: Option<string>, nextKey: Option<string>)
    | Error(message: string)

  /** What the paging library passes to `getRefreshKey`; the loader ignores it. */
  datatype PagingState = PagingState(anchorPosition: Option<int>, pages: seq<seq<MemoEntity>>)

  class MemosPagingSource {
    const dao: MemoDao
    const accountKey: string
    const filter: Option<string>
    const orderBy: Option<string>

    constructor (dao: MemoDao, accountKey: string, filter: Option<string>, orderBy: Option<string>)
      ensures this.dao == dao && this.accountKey == accountKey
      ensures this.filter == filter && this.orderBy == orderBy
    {
      this.dao := dao;
      this.accountKey := accountKey;
      this.filter := filter;
      this.orderBy := orderBy;
    }

    /** `getRefreshKey`: a refresh always starts again from the first page. */
    function GetRefreshKey(state: PagingState): (key: Option<string>)
      ensures key.None?
    {
      None
    }

    /** The request `load` sends for `params`. */
    function RequestFor(params: LoadParams): (req: PageRequest)
      reads this
      ensures req.pageToken == params.key && req.pageSize == params.loadSize
      ensures req.filter == filter && req.orderBy == orderBy
    {
      PageRequest(params.loadSize, params.key, filter, orderBy)
    }

    /** `convertAndCache`: merges one remote memo into the store. */
    method ConvertAndCache(memo: RemoteMemo) returns (e: MemoEntity)
      requires dao.Valid()
      modifies dao
      ensures dao.Valid()
      ensures Reconciles(old(dao.State()), accountKey, memo, dao.State(), e)
    {
      ghost var s := dao.State();
      var existing := dao.GetMemoByRemoteId(memo.remoteId, accountKey);
      if existing.Some? && existing.value.needsSync {
        var resources := dao.GetMemoResources(existing.value.identifier, accountKey);
        e := existing.value.Copy().WithResources(resources);
        assert ReconcileOutcome(s, accountKey, memo, existing, resources, dao.State(), e);
        return;
      }

      var localIdentifier;
      if existing.Some? {
        localIdentifier := existing.value.identifier;
      } else {
        localIdentifier := RandomUuid(dao.memos.Keys);
      }
      var entity := MergedEntity(existing, localIdentifier, accountKey, memo);
      dao.InsertMemo(entity);

      var currentResources := dao.GetMemoResources(localIdentifier, accountKey);
      var remoteResourceIds := RemoteResourceIds(memo);
      DeleteStaleResources(currentResources, remoteResourceIds);
      var cachedResources := CacheResources(currentResources, localIdentifier, memo.resources);
      e := entity.Copy().WithResources(cachedResources);
      assert ReconcileOutcome(s, accountKey, memo, existing, currentResources, dao.State(), e);
    }

    /** Remove resources no longer present remotely: the `forEach` of `deleteResource` calls. */
    method DeleteStaleResources(currentResources: seq<ResourceEntity>, remoteResourceIds: set<string>)
      requires dao.Valid()
      modifies dao
      ensures dao.Valid()
      ensures dao.memos == old(dao.memos)
      ensures dao.resources == old(dao.resources) - StaleIds(currentResources, remoteResourceIds)
    {
      var i := 0;
      while i < |currentResources|
        invariant 0 <= i <= |currentResources|
        invariant dao.Valid()
        invariant dao.memos == old(dao.memos)
        invariant dao.resources == old(dao.resources) - StaleIds(currentResources[..i], remoteResourceIds)
      {
        assert currentResources[..i + 1] == currentResources[..i] + [currentResources[i]];
        if IsStale(currentResources[i], remoteResourceIds) {
          dao.DeleteResource(currentResources[i]);
        }
        i := i + 1;
      }
      assert currentResources[..i] == currentResources;
    }

    /** Upsert remote resources: the `map` of `insertResource` calls, returning the rows written. */
    method CacheResources(currentResources: seq<ResourceEntity>, localIdentifier: string,
                          remote: seq<RemoteResource>) returns (cachedResources: seq<ResourceEntity>)
      requires dao.Valid()
      modifies dao
      ensures dao.Valid()
      ensures dao.memos == old(dao.memos)
      ensures dao.resources == Upsert(old(dao.resources), cachedResources)
      ensures CachedCorrectly(old(dao.resources), currentResources, accountKey, localIdentifier, remote,
                              cachedResources)
    {
      ghost var base := dao.resources;
      cachedResources := [];
      var j := 0;
      while j < |remote|
        invariant 0 <= j <= |remote|
        invariant dao.Valid()
        invariant dao.memos == old(dao.memos)
        invariant dao.resources == Upsert(base, cachedResources)
        invariant CachedCorrectly(base, currentResources, accountKey, localIdentifier, remote[..j],
                                  cachedResources)
      {
        var resource := remote[j];
        var existingResource := FirstByRemoteId(currentResources, resource.remoteId);
        var localResourceId;
        if existingResource.Some? {
          localResourceId := existingResource.value.identifier;
        } else {
          localResourceId := RandomUuid(dao.resources.Keys);
        }
        var resourceEntity := CachedResource(existingResource, localResourceId, accountKey, localIdentifier,
                                             resource);
        dao.InsertResource(resourceEntity);
        CachedCorrectlyStep(base, currentResources, accountKey, localIdentifier, remote[..j], cachedResources,
                            resource, resourceEntity);
        cachedResources := cachedResources + [resourceEntity];
        assert remote[..j + 1] == remote[..j] + [resource];
        j := j + 1;
      }
      assert remote[..j] == remote;
    }

    /**
     * `load`: one remote call with the page token passed through, then every memo of the
     * page reconciled in order. A remote failure makes the whole page an Error.
     */
    method Load(params: LoadParams, listMemosPaged: PageRequest -> RemoteResponse) returns (result: LoadResult)
      requires dao.Valid()
      modifies dao
      ensures dao.Valid()
      ensures match listMemosPaged(RequestFor(params))
        case ResponseFailure(message) =>
          result == Error(message) && dao.State() == old(dao.State())
        case ResponseSuccess(memos, nextPageToken) =>
          && result.Page?
          && result.prevKey.None?
          && result.nextKey == nextPageToken
          && ReconcilesAll(old(dao.State()), accountKey, memos, dao.State(), result.data)
    {
      var response := listMemosPaged(RequestFor(params));
      if response.ResponseFailure? {
        return Error(response.message);
      }
      var memos := response.memos;
      ghost var s := dao.State();
      var entities: seq<MemoEntity> := [];
      var i := 0;
      while i < |memos|
        invariant 0 <= i <= |memos|
        invariant dao.Valid()
        invariant ReconcilesAll(s, accountKey, memos[..i], dao.State(), entities)
      {
        ghost var mid := dao.State();
        var entity := ConvertAndCache(memos[i]);
        ReconcilesAllStep(s, accountKey, memos, i, mid, entities, dao.State(), entity);
        entities := entities + [entity];
        i := i + 1;
      }
      assert memos[..i] == memos;
      result := Page(entities, None, response.nextPageToken);
    }
  }
}
