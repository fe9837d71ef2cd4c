/**
 * The local store as the reconciler sees it: the memo table and the resource table,
 * each keyed by its primary key `identifier`, and the DAO calls made on them.
 * The DAO's SQL bodies are not part of this model; inserts are upserts by primary key.
 */
module MemoStore {
  import opened Wrappers
  import opened MemoEntities

  /** A snapshot of both tables. */
  datatype Tables = Tables(memos: map<string, MemoEntity>, resources: map<string, ResourceEntity>)

  /** Rows sit under their own primary key; stored memo rows carry no attached resources. */
  ghost predicate KeyedByIdentifier(t: Tables) {
    && (forall k :: k in t.memos ==> t.memos[k].identifier == k && t.memos[k].resources == [])
    && (forall k :: k in t.resources ==> t.resources[k].identifier == k)
  }

  predicate MatchesRemote(m: MemoEntity, remoteId: string, accountKey: string) {
    m.remoteId == Some(remoteId) && m.accountKey == accountKey
  }

  predicate BelongsTo(r: ResourceEntity, memoId: string, accountKey: string) {
    r.memoId == Some(memoId) && r.accountKey == accountKey
  }

  /**
   * `existing` is a possible answer of `getMemoByRemoteId`: none when no row matches,
   * otherwise one of the matching rows (the index is not unique, so which one is open).
   */
  ghost predicate LookupOk(memos: map<string, MemoEntity>, remoteId: string, accountKey: string,
                           existing: Option<MemoEntity>)
  {
    && (existing.None? <==> forall k :: k in memos ==> !MatchesRemote(memos[k], remoteId, accountKey))
    && (existing.Some? ==>
          && existing.value.identifier in memos
          && memos[existing.value.identifier] == existing.value
          && MatchesRemote(existing.value, remoteId, accountKey))
  }

  /** `rs` lists every resource row of the memo exactly once, in some order. */
  ghost predicate IsListing(resources: map<string, ResourceEntity>, memoId: string, accountKey: string,
                            rs: seq<ResourceEntity>)
  {
    && (forall i :: 0 <= i < |rs| ==>
          && rs[i].identifier in resources
          && resources[rs[i].identifier] == rs[i]
          && BelongsTo(rs[i], memoId, accountKey))
    && (forall k :: k in resources && BelongsTo(resources[k], memoId, accountKey) ==> resources[k] in rs)
    && (forall i, j :: 0 <= i < j < |rs| ==> rs[i].identifier != rs[j].identifier)
  }

  class MemoDao {
    var memos: map<string, MemoEntity>
    var resources: map<string, ResourceEntity>

    function State(): Tables
      reads this
    {
      Tables(memos, resources)
    }

    ghost predicate Valid()
      reads this
    {
      KeyedByIdentifier(State())
    }

    constructor ()
      ensures Valid() && memos == map[] && resources == map[]
    {
      memos := map[];
      resources := map[];
    }

    /** `getMemoByRemoteId(remoteId, accountKey)`. */
    method GetMemoByRemoteId(remoteId: string, accountKey: string) returns (existing: Option<MemoEntity>)
      requires Valid()
      ensures LookupOk(memos, remoteId, accountKey, existing)
    {
      if k :| k in memos && MatchesRemote(memos[k], remoteId, accountKey) {
        existing := Some(memos[k]);
      } else {
        existing := None;
      }
    }

    /** `getMemoResources(memoId, accountKey)`: the rows come back in no promised order. */
    method GetMemoResources(memoId: string, accountKey: string) returns (rs: seq<ResourceEntity>)
      requires Valid()
      ensures IsListing(resources, memoId, accountKey, rs)
    {
      var keys := resources.Keys;
      rs := [];
      while keys != {}
        invariant keys <= resources.Keys
        invariant forall i :: 0 <= i < |rs| ==>
          && rs[i].identifier in resources
          && resources[rs[i].identifier] == rs[i]
          && rs[i].identifier !in keys
          && BelongsTo(rs[i], memoId, accountKey)
        invariant forall k :: k in resources && k !in keys && BelongsTo(resources[k], memoId, accountKey) ==>
          resources[k] in rs
        invariant forall i, j :: 0 <= i < j < |rs| ==> rs[i].identifier != rs[j].identifier
        decreases keys
      {
        var k :| k in keys;
        if BelongsTo(resources[k], memoId, accountKey) {
          rs := rs + [resources[k]];
        }
        keys := keys - {k};
      }
    }

    /** `insertMemo`: an upsert by primary key; the ignored `resources` field is not stored. */
    method InsertMemo(m: MemoEntity)
      requires Valid()
      modifies this
      ensures Valid()
      ensures memos == old(memos)[m.identifier := m.Copy()] && resources == old(resources)
    {
      memos := memos[m.identifier := m.Copy()];
    }

    /** `insertResource`: an upsert by primary key. */
    method InsertResource(r: ResourceEntity)
      requires Valid()
      modifies this
      ensures Valid()
      ensures resources == old(resources)[r.identifier := r] && memos == old(memos)
    {
      resources := resources[r.identifier := r];
    }

    /** `deleteResource`: removes the row with that primary key. */
    method DeleteResource(r: ResourceEntity)
      requires Valid()
      modifies this
      ensures Valid()
      ensures resources == old(resources) - {r.identifier} && memos == old(memos)
    {
      resources := resources - {r.identifier};
    }
  }

  /**
   * `UUID.randomUUID().toString()` as a fresh-identifier oracle: an identifier that is not
   * among `taken` (here: one longer than every taken identifier).
   */
  method RandomUuid(taken: set<string>) returns (id: string)
    ensures id !in taken
  {
    var rest := taken;
    var longest: nat := 0;
    while rest != {}
      invariant rest <= taken
      invariant forall t :: t in taken && t !in rest ==> |t| <= longest
      decreases rest
    {
      var t :| t in rest;
      if |t| > longest {
        longest := |t|;
      }
      rest := rest - {t};
    }
    id := seq(longest + 1, _ => '0');
  }
}
