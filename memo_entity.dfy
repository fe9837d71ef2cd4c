/**
 * The cached memo row (`MemoEntity`) and the attachment row it is shown with
 * (`ResourceEntity`). Instants are whole epoch seconds.
 */
module MemoEntities {
  import opened Wrappers
  import opened MemoLocations

  datatype MemoVisibility = Private | Protected | Public

  /**
   * An attachment row. `localUri` is the local copy of the file, known only to the
   * device; `memoId` is the identifier of the owning memo row.
   */
  datatype ResourceEntity = ResourceEntity(
    identifier: string,
    remoteId: Option<string>,
    accountKey: string,
    date: int,
    filename: string,
    uri: string,
    localUri: Option<string>,
    mimeType: Option<string>,
    memoId: Option<string>)

  /**
   * A memo row. `identifier` is the primary key; the `(accountKey, remoteId)` index is
   * not unique. `resources` is the body field that Room ignores: it is not a constructor
   * parameter, so `copy()` resets it (see Copy).
   */
  datatype MemoEntity = MemoEntity(
    identifier: string,
    remoteId: Option<string>,
    accountKey: string,
    content: string,
    date: int,
    visibility: MemoVisibility,
    pinned: bool,
    archived: bool,
    needsSync: bool,
    isDeleted: bool,
    lastModified: int,
    lastSyncedAt: Option<int>,
    locationPlaceholder: Option<string>,
    locationLatitude: Option<real>,
    locationLongitude: Option<real>,
    locationZoom: Option<int>,
    resources: seq<ResourceEntity>)
  {
    /** The derived `location`: present as soon as one of the three columns is. */
    function Location(): Option<MemoLocation> {
      if locationPlaceholder.Some? || locationLatitude.Some? || locationLongitude.Some? then
        Some(MemoLocation(
          locationPlaceholder.GetOr(""),
          locationLatitude.GetOr(0.0),
          locationLongitude.GetOr(0.0),
          locationZoom.GetOr(DEFAULT_ZOOM)))
      else
        None
    }

    /** `copy()` with no arguments: every constructor field kept, `resources` back to empty. */
    function Copy(): (m: MemoEntity)
      ensures m.resources == []
      ensures m.WithResources(resources) == this
    {
      this.(resources := [])
    }

    /** `.also { it.resources = rs }`. */
    function WithResources(rs: seq<ResourceEntity>): MemoEntity {
      this.(resources := rs)
    }
  }

  /**
   * The primary constructor called with only its required arguments: the defaults of
   * every other field. `now` stands for the `Instant.now()` default of `lastModified`.
   */
  function NewMemoEntity(identifier: string, accountKey: string, content: string, date: int,
                         visibility: MemoVisibility, pinned: bool, now: int): MemoEntity
  {
    MemoEntity(identifier, None, accountKey, content, date, visibility, pinned,
               false, true, false, now, None, None, None, None, None, [])
  }

  lemma LocationAbsentIff(m: MemoEntity)
    ensures m.Location().None? <==>
            m.locationPlaceholder.None? && m.locationLatitude.None? && m.locationLongitude.None?
  {
  }

  /** A stored zoom on its own does not make a location. */
  lemma ZoomAloneIsNoLocation(m: MemoEntity)
    requires m.locationPlaceholder.None? && m.locationLatitude.None? && m.locationLongitude.None?
    requires m.locationZoom.Some?
    ensures m.Location().None?
  {
  }

  /** Missing columns of a present location read as "", 0.0, 0.0 and DEFAULT_ZOOM. */
  lemma LocationDefaults(m: MemoEntity)
    requires m.Location().Some?
    ensures m.Location().value.placeholder == (if m.locationPlaceholder.Some? then m.locationPlaceholder.value else "")
    ensures m.Location().value.latitude == (if m.locationLatitude.Some? then m.locationLatitude.value else 0.0)
    ensures m.Location().value.longitude == (if m.locationLongitude.Some? then m.locationLongitude.value else 0.0)
    ensures m.Location().value.zoom == (if m.locationZoom.Some? then m.locationZoom.value else DEFAULT_ZOOM)
  {
  }

  /** A memo built with the defaults is unsynced, live, unarchived and has no location. */
  lemma DefaultsHaveNoLocation(identifier: string, accountKey: string, content: string, date: int,
                               visibility: MemoVisibility, pinned: bool, now: int)
    ensures var m := NewMemoEntity(identifier, accountKey, content, date, visibility, pinned, now);
      && m.remoteId.None? && !m.archived && m.needsSync && !m.isDeleted
      && m.lastSyncedAt.None? && m.locationZoom.None? && m.resources == []
      && m.Location().None?
  {
  }

  /** Attaching resources and copying again loses them: callers must re-attach. */
  lemma CopyDropsResources(m: MemoEntity, rs: seq<ResourceEntity>)
    ensures m.WithResources(rs).Copy() == m.Copy()
    ensures m.WithResources(rs).resources == rs
  {
  }

  /** An entity is determined by its copy and its attached resources. */
  lemma CopyAndResourcesDetermine(a: MemoEntity, b: MemoEntity)
    requires a.Copy() == b.Copy() && a.resources == b.resources
    ensures a == b
  {
    assert a == a.Copy().WithResources(a.resources);
  }
}
