/**
 * The memo list screen's state holder: which pager feeds the list, the filter and
 * fallback flags, the in-memory memo list and its edits, the usage histogram, and the
 * branching of automatic and manual sync on the compatibility check and the sync result.
 * Remote and service calls are recorded in a call log; their answers are parameters.
 */
module MemosViewModels {
  import opened Wrappers
  import MemoFilters
  import opened MemoEntities
  import opened FilterQuery
  import MemosPaging

  // ---------------------------------------------------------------------------
  // Choosing the pager

  /** The current account as far as paging cares: its key and whether it is a Memos v1 server. */
  datatype Account = Account(accountKey: string, isMemosV1: bool)

  /** Where a pager's pages come from. */
  datatype PageSource =
    | RemoteSource(accountKey: string, filter: Option<string>, orderBy: string)
    | LocalAll(accountKey: string)
    | LocalByTag(accountKey: string, tag: string)
    | LocalBySearch(accountKey: string, query: string)

  datatype Paging = EmptyPaging | Paged(pageSize: nat, source: PageSource)

  const API_ORDER_BY: string := "display_time desc"

  /**
   * The pager for an account, a debounced filter and the fallback flag. Tag and search
   * filters on a v1 account go to the server unless the fallback flag is set; everything
   * else reads the local cache.
   */
  function ChoosePaging(account: Option<Account>, filter: MemoFilters.MemoFilter, useLocal: bool,
                        remoteAvailable: bool): Paging
  {
    if account.None? then EmptyPaging
    else
      var key := account.value.accountKey;
      if account.value.isMemosV1 && !useLocal && !filter.None? then
        if remoteAvailable then Paged(MemosPaging.MEMOS_PAGE_SIZE, RemoteSource(key, BuildApiFilter(filter), API_ORDER_BY))
        else EmptyPaging
      else
        match filter
        case None => Paged(MemosPaging.MEMOS_PAGE_SIZE, LocalAll(key))
        case Tag(tag) => Paged(MemosPaging.MEMOS_PAGE_SIZE, LocalByTag(key, tag))
        case Search(query) => Paged(MemosPaging.MEMOS_PAGE_SIZE, LocalBySearch(key, query))
  }

  /** The server is paged exactly for a tag or search filter on a v1 account, fallback off, repository present. */
  lemma RemotePagingIff(account: Option<Account>, filter: MemoFilters.MemoFilter, useLocal: bool, remoteAvailable: bool)
    ensures var p := ChoosePaging(account, filter, useLocal, remoteAvailable);
      (p.Paged? && p.source.RemoteSource?) <==>
        account.Some? && account.value.isMemosV1 && !useLocal && !filter.None? && remoteAvailable
  {
  }

  /** No pages without an account, or when server paging is chosen and there is no repository. */
  lemma EmptyPagingIff(account: Option<Account>, filter: MemoFilters.MemoFilter, useLocal: bool, remoteAvailable: bool)
    ensures ChoosePaging(account, filter, useLocal, remoteAvailable) == EmptyPaging <==>
      account.None? || (account.value.isMemosV1 && !useLocal && !filter.None? && !remoteAvailable)
  {
  }

  /**
   * A server pager queries with the account's key, the filter expression of the filter
   * (whose literal reads back as the tag or query), newest display time first, ten a page.
   */
  lemma RemotePagingQuery(account: Option<Account>, filter: MemoFilters.MemoFilter, useLocal: bool, remoteAvailable: bool)
    requires var p := ChoosePaging(account, filter, useLocal, remoteAvailable); p.Paged? && p.source.RemoteSource?
    ensures var p := ChoosePaging(account, filter, useLocal, remoteAvailable);
      && p.pageSize == 10
      && p.source.accountKey == account.value.accountKey
      && p.source.orderBy == "display_time desc"
      && p.source.filter.Some?
      && (filter.Tag? ==> Unescape(Between(TAG_PREFIX, TAG_SUFFIX, p.source.filter.value).value) == Some(filter.tag))
      && (filter.Search? ==> Unescape(Between(SEARCH_PREFIX, SEARCH_SUFFIX, p.source.filter.value).value) == Some(filter.query))
  {
    ApiFilterRoundTrip(filter);
  }

  /** Every other case with an account reads the cache with the query matching the filter. */
  lemma LocalPagingDispatch(account: Option<Account>, filter: MemoFilters.MemoFilter, useLocal: bool, remoteAvailable: bool)
    requires account.Some?
    requires !(account.value.isMemosV1 && !useLocal && !filter.None?)
    ensures var p := ChoosePaging(account, filter, useLocal, remoteAvailable);
      && p.Paged? && p.pageSize == 10
      && (filter.None? ==> p.source == LocalAll(account.value.accountKey))
      && (filter.Tag? ==> p.source == LocalByTag(account.value.accountKey, filter.tag))
      && (filter.Search? ==> p.source == LocalBySearch(account.value.accountKey, filter.query))
  {
  }

  /** The fallback flag and the empty filter each force the local cache. */
  lemma FallbackOrNoFilterStaysLocal(account: Option<Account>, filter: MemoFilters.MemoFilter, useLocal: bool,
                                     remoteAvailable: bool)
    requires useLocal || filter.None?
    ensures var p := ChoosePaging(account, filter, useLocal, remoteAvailable);
      p.Paged? ==> !p.source.RemoteSource?
    ensures account.Some? ==> ChoosePaging(account, filter, useLocal, remoteAvailable).Paged?
  {
  }

  // ---------------------------------------------------------------------------
  // The debounced filter

  /** The quiet period before a filter is passed on: typing a search waits, picking a tag does not. */
  function DebounceMillis(filter: MemoFilters.MemoFilter): (ms: nat)
    ensures ms == 300 <==> filter.Search?
    ensures ms == 0 <==> !filter.Search?
  {
    if filter.Search? then 300 else 0
  }

  /** `distinctUntilChanged`: a value equal to the last one passed on is dropped. */
  function DistinctFrom(last: Option<MemoFilters.MemoFilter>, xs: seq<MemoFilters.MemoFilter>): seq<MemoFilters.MemoFilter>
    decreases |xs|
  {
    if xs == [] then []
    else if last == Some(xs[0]) then DistinctFrom(last, xs[1..])
    else [xs[0]] + DistinctFrom(Some(xs[0]), xs[1..])
  }

  function DistinctUntilChanged(xs: seq<MemoFilters.MemoFilter>): seq<MemoFilters.MemoFilter> {
    DistinctFrom(Option.None, xs)
  }

  predicate NoRepeats(ys: seq<MemoFilters.MemoFilter>) {
    forall i :: 0 <= i < |ys| - 1 ==> ys[i] != ys[i + 1]
  }

  /** The output has no back-to-back repeats and does not start with the last filter passed on. */
  lemma {:induction false} DistinctFromSpaced(last: Option<MemoFilters.MemoFilter>, xs: seq<MemoFilters.MemoFilter>)
    ensures var ys := DistinctFrom(last, xs); NoRepeats(ys) && (ys != [] ==> last != Some(ys[0]))
    decreases |xs|
  {
    if xs != [] {
      if last == Some(xs[0]) {
        DistinctFromSpaced(last, xs[1..]);
      } else {
        DistinctFromSpaced(Some(xs[0]), xs[1..]);
        var ys := DistinctFrom(last, xs);
        assert ys == [xs[0]] + DistinctFrom(Some(xs[0]), xs[1..]);
      }
    }
  }

  /** The output holds only filters of the input, and every filter other than `last`. */
  lemma {:induction false} DistinctFromMembers(last: Option<MemoFilters.MemoFilter>, xs: seq<MemoFilters.MemoFilter>)
    ensures var ys := DistinctFrom(last, xs);
      && (forall x :: x in ys ==> x in xs)
      && (forall x :: x in xs && last != Some(x) ==> x in ys)
    decreases |xs|
  {
    if xs != [] {
      var rest := xs[1..];
      var ys := DistinctFrom(last, xs);
      if last == Some(xs[0]) {
        DistinctFromMembers(last, rest);
        forall x | x in xs && last != Some(x) ensures x in ys {
          assert x in rest;
        }
      } else {
        DistinctFromMembers(Some(xs[0]), rest);
        assert ys == [xs[0]] + DistinctFrom(Some(xs[0]), rest);
        forall x | x in xs && last != Some(x) ensures x in ys {
          if x != xs[0] {
            assert x in rest;
          }
        }
      }
    }
  }

  /** The output ends with the input's last filter, unless that one was swallowed as a repeat of `last`. */
  lemma {:induction false} DistinctFromLast(last: Option<MemoFilters.MemoFilter>, xs: seq<MemoFilters.MemoFilter>)
    ensures var ys := DistinctFrom(last, xs);
      && (xs != [] && last != Some(xs[|xs| - 1]) ==> ys != [] && ys[|ys| - 1] == xs[|xs| - 1])
      && (xs != [] && ys != [] ==> ys[|ys| - 1] == xs[|xs| - 1])
    decreases |xs|
  {
    if xs != [] {
      var rest := xs[1..];
      if rest != [] {
        assert rest[|rest| - 1] == xs[|xs| - 1];
      }
      if last == Some(xs[0]) {
        DistinctFromLast(last, rest);
      } else {
        DistinctFromLast(Some(xs[0]), rest);
        var ys := DistinctFrom(last, xs);
        assert ys == [xs[0]] + DistinctFrom(Some(xs[0]), rest);
      }
    }
  }

  lemma DistinctFromFacts(last: Option<MemoFilters.MemoFilter>, xs: seq<MemoFilters.MemoFilter>)
    ensures var ys := DistinctFrom(last, xs);
      && NoRepeats(ys)
      && (ys != [] ==> last != Some(ys[0]))
      && (forall x :: x in ys ==> x in xs)
      && (forall x :: x in xs && last != Some(x) ==> x in ys)
      && (xs != [] && last != Some(xs[|xs| - 1]) ==> ys != [] && ys[|ys| - 1] == xs[|xs| - 1])
      && (xs != [] && ys != [] ==> ys[|ys| - 1] == xs[|xs| - 1])
  {
    DistinctFromSpaced(last, xs);
    DistinctFromMembers(last, xs);
    DistinctFromLast(last, xs);
  }

  /**
   * The values passed on never repeat back to back, are exactly the values the operator
   * receives, and end with the latest one it receives.
   */
  lemma DistinctUntilChangedFacts(xs: seq<MemoFilters.MemoFilter>)
    ensures var ys := DistinctUntilChanged(xs);
      && NoRepeats(ys)
      && (forall x :: x in ys <==> x in xs)
      && (xs != [] ==> ys != [] && ys[|ys| - 1] == xs[|xs| - 1])
  {
    DistinctFromFacts(Option.None, xs);
  }

  lemma {:induction false} DistinctFromNoRepeats(last: Option<MemoFilters.MemoFilter>, ys: seq<MemoFilters.MemoFilter>)
    requires NoRepeats(ys)
    requires ys != [] ==> last != Some(ys[0])
    ensures DistinctFrom(last, ys) == ys
    decreases |ys|
  {
    if ys != [] {
      DistinctFromNoRepeats(Some(ys[0]), ys[1..]);
      assert [ys[0]] + ys[1..] == ys;
    }
  }

  /** Passing the output through a second time changes nothing. */
  lemma DistinctUntilChangedIdempotent(xs: seq<MemoFilters.MemoFilter>)
    ensures DistinctUntilChanged(DistinctUntilChanged(xs)) == DistinctUntilChanged(xs)
  {
    DistinctFromFacts(Option.None, xs);
    DistinctFromNoRepeats(Option.None, DistinctUntilChanged(xs));
  }

  // ---------------------------------------------------------------------------
  // List helpers

  /** `indexOfFirst { it.identifier == identifier }`. */
  function IndexOfFirst(s: seq<MemoEntity>, identifier: string): (r: int)
    ensures -1 <= r < |s|
    ensures r == -1 <==> forall i :: 0 <= i < |s| ==> s[i].identifier != identifier
    ensures r >= 0 ==> s[r].identifier == identifier && forall i :: 0 <= i < r ==> s[i].identifier != identifier
  {
    if s == [] then -1
    else if s[0].identifier == identifier then 0
    else
      var r := IndexOfFirst(s[1..], identifier);
      if r == -1 then -1 else r + 1
  }

  /** `removeIf { it.identifier == identifier }`, on values. */
  function Without(s: seq<MemoEntity>, identifier: string): (r: seq<MemoEntity>)
    ensures |r| <= |s|
    ensures forall m :: m in r ==> m in s && m.identifier != identifier
  {
    if s == [] then []
    else if s[0].identifier == identifier then Without(s[1..], identifier)
    else [s[0]] + Without(s[1..], identifier)
  }

  /** Every element with another identifier is kept. */
  lemma {:induction false} WithoutKeepsOthers(s: seq<MemoEntity>, identifier: string)
    ensures forall m :: m in s && m.identifier != identifier ==> m in Without(s, identifier)
    decreases |s|
  {
    if s != [] {
      WithoutKeepsOthers(s[1..], identifier);
      forall m | m in s && m.identifier != identifier ensures m in Without(s, identifier) {
        if m != s[0] {
          assert m in s[1..];
        }
      }
    }
  }

  /** Removal works piecewise, so the kept elements stay in their order. */
  lemma {:induction false} WithoutAppend(a: seq<MemoEntity>, b: seq<MemoEntity>, identifier: string)
    ensures Without(a + b, identifier) == Without(a, identifier) + Without(b, identifier)
    decreases |a|
  {
    if a == [] {
      assert a + b == b;
    } else {
      assert (a + b)[1..] == a[1..] + b;
      WithoutAppend(a[1..], b, identifier);
    }
  }

  /** A list with no element of that identifier is left as it is. */
  lemma {:induction false} WithoutNoMatch(s: seq<MemoEntity>, identifier: string)
    requires forall i :: 0 <= i < |s| ==> s[i].identifier != identifier
    ensures Without(s, identifier) == s
    decreases |s|
  {
    if s != [] {
      WithoutNoMatch(s[1..], identifier);
      assert [s[0]] + s[1..] == s;
    }
  }

  // ---------------------------------------------------------------------------
  // The usage histogram

  /** One cell of the heatmap: an epoch day and the number of memos written on it. */
  datatype DailyUsageStat = DailyUsageStat(date: int, count: nat)

  const SECONDS_PER_DAY: int := 86400

  /** The local date of an instant at a fixed UTC offset, as an epoch day (flooring for instants before 1970). */
  function DayOf(epochSecond: int, offsetSeconds: int): int {
    (epochSecond + offsetSeconds) / SECONDS_PER_DAY
  }

  /** The local day is the one whose span of seconds holds the shifted instant. */
  lemma DayOfBounds(epochSecond: int, offsetSeconds: int)
    ensures var day := DayOf(epochSecond, offsetSeconds);
      day * SECONDS_PER_DAY <= epochSecond + offsetSeconds < (day + 1) * SECONDS_PER_DAY
  {
  }

  /** How many of `memos` fall on `day`. */
  function CountOnDay(memos: seq<MemoEntity>, day: int, offsetSeconds: int): (n: nat)
    ensures n <= |memos|
  {
    if memos == [] then 0
    else CountOnDay(memos[..|memos| - 1], day, offsetSeconds)
         + (if DayOf(memos[|memos| - 1].date, offsetSeconds) == day then 1 else 0)
  }

  /** The indices of the memos falling on `day`. */
  function IndicesOnDay(memos: seq<MemoEntity>, day: int, offsetSeconds: int): set<int> {
    set i | 0 <= i < |memos| && DayOf(memos[i].date, offsetSeconds) == day
  }

  /** Dropping the last memo drops at most its own index from the day's indices. */
  lemma IndicesOnDaySnoc(memos: seq<MemoEntity>, day: int, offsetSeconds: int)
    requires memos != []
    ensures var n := |memos| - 1;
      && IndicesOnDay(memos, day, offsetSeconds)
         == IndicesOnDay(memos[..n], day, offsetSeconds)
            + (if DayOf(memos[n].date, offsetSeconds) == day then {n} else {})
      && n !in IndicesOnDay(memos[..n], day, offsetSeconds)
  {
    var n := |memos| - 1;
    forall i | 0 <= i < n ensures memos[i] == memos[..n][i] { }
  }

  /** The count is the number of memos whose local date is that day. */
  lemma {:induction false} CountOnDayCounts(memos: seq<MemoEntity>, day: int, offsetSeconds: int)
    ensures CountOnDay(memos, day, offsetSeconds) == |IndicesOnDay(memos, day, offsetSeconds)|
    decreases |memos|
  {
    if memos != [] {
      var n := |memos| - 1;
      CountOnDayCounts(memos[..n], day, offsetSeconds);
      IndicesOnDaySnoc(memos, day, offsetSeconds);
    }
  }

  /** The counts over distinct days never add up to more memos than there are. */
  lemma {:induction false} CountOnDayDisjoint(memos: seq<MemoEntity>, d1: int, d2: int, offsetSeconds: int)
    requires d1 != d2
    ensures CountOnDay(memos, d1, offsetSeconds) + CountOnDay(memos, d2, offsetSeconds) <= |memos|
    decreases |memos|
  {
    if memos != [] {
      CountOnDayDisjoint(memos[..|memos| - 1], d1, d2, offsetSeconds);
    }
  }

  function CountOf(counts: map<int, nat>, day: int): nat {
    if day in counts then counts[day] else 0
  }

  // ---------------------------------------------------------------------------
  // Sync outcomes

  datatype ApiResponse<T> = Success(data: T) | Failure(message: string, accessTokenInvalid: bool)

  datatype SyncCompatibility =
    | Allowed
    | Blocked(blockedMessage: Option<string>)
    | RequiresConfirmation(version: string, message: string)

  datatype ManualSyncResult =
    | Completed
    | SyncBlocked(message: string)
    | NeedsConfirmation(version: string, message: string)
    | Failed(message: string)

  /** The localised "supported versions" text shown when a blocked check carries no message. */
  const SUPPORTED_VERSIONS_MESSAGE: string

  /** The calls the screen makes into the account and memo services, in order. */
  datatype ServiceCall =
    | CompatibilityCheck(isAutomatic: bool, allowHigherV1Version: Option<string>)
    | SyncRequest(force: bool)
    | RememberVersion(version: string)
    | WidgetsUpdated
    | ListTagsRequest
    | ListMemosRequest
    | UpdatePinnedRequest(identifier: string, pinned: bool)
    | EditRequest(identifier: string, content: string, resources: Option<seq<ResourceEntity>>, visibility: MemoVisibility)
    | ArchiveRequest(identifier: string)
    | DeleteRequest(identifier: string)

  /** The tags after a `listTags` answer: replaced on success, kept otherwise. */
  function TagsAfter(tags: seq<string>, response: ApiResponse<seq<string>>): seq<string> {
    if response.Success? then response.data else tags
  }

  /** Every field of the screen state. */
  datatype ViewState = ViewState(
    memos: seq<MemoEntity>,
    tags: seq<string>,
    errorMessage: Option<string>,
    matrix: seq<DailyUsageStat>,
    currentFilter: MemoFilters.MemoFilter,
    useLocalFallback: bool,
    refreshSignal: int,
    calls: seq<ServiceCall>)

  class MemosViewModel {
    var memos: seq<MemoEntity>
    var tags: seq<string>
    var errorMessage: Option<string>
    var matrix: seq<DailyUsageStat>
    var currentFilter: MemoFilters.MemoFilter
    var useLocalFallback: bool
    var refreshSignal: int
    var calls: seq<ServiceCall>
    /** The empty heatmap for the days shown. */
    const initialMatrix: seq<DailyUsageStat>

    function State(): ViewState
      reads this
    {
      ViewState(memos, tags, errorMessage, matrix, currentFilter, useLocalFallback, refreshSignal, calls)
    }

    constructor(initialMatrix: seq<DailyUsageStat>)
      ensures State() == ViewState([], [], Option.None, initialMatrix, MemoFilters.None, false, 0, [])
      ensures this.initialMatrix == initialMatrix
    {
      memos := [];
      tags := [];
      errorMessage := Option.None;
      matrix := initialMatrix;
      currentFilter := MemoFilters.None;
      useLocalFallback := false;
      refreshSignal := 0;
      calls := [];
      this.initialMatrix := initialMatrix;
    }

    // --- filter and fallback flags

    /** Choosing a filter always leaves the offline fallback. */
    method SetFilter(filter: MemoFilters.MemoFilter)
      modifies this
      ensures State() == old(State()).(useLocalFallback := false, currentFilter := filter)
    {
      useLocalFallback := false;
      currentFilter := filter;
    }

    method EnableOfflineFallback()
      modifies this
      ensures State() == old(State()).(useLocalFallback := true)
    {
      useLocalFallback := true;
    }

    /** A new refresh signal (the current time in milliseconds) re-creates the pager. */
    method TriggerPagingRefresh(now: int)
      modifies this
      ensures State() == old(State()).(refreshSignal := now)
    {
      refreshSignal := now;
    }

    // --- the memo list

    /** The list becomes exactly the new list, and any error is cleared. */
    method ApplyMemos(latest: seq<MemoEntity>)
      modifies this
      ensures State() == old(State()).(memos := latest, errorMessage := Option.None)
    {
      memos := latest;
      errorMessage := Option.None;
    }

    /** The first element with the memo's identifier is replaced; nothing happens when there is none. */
    method UpdateMemo(memo: MemoEntity)
      modifies this
      ensures |memos| == |old(memos)|
      ensures IndexOfFirst(old(memos), memo.identifier) == -1 ==> memos == old(memos)
      ensures var k := IndexOfFirst(old(memos), memo.identifier); k >= 0 ==> memos == old(memos)[k := memo]
      ensures State() == old(State()).(memos := memos)
    {
      var index := IndexOfFirst(memos, memo.identifier);
      if index != -1 {
        memos := memos[index := memo];
      }
    }

    /** Every element with the identifier leaves the list; the others keep their order. */
    method RemoveMemo(identifier: string)
      modifies this
      ensures State() == old(State()).(memos := Without(old(memos), identifier))
    {
      memos := Without(memos, identifier);
    }

    /** Pinning on the server; on success the list, the widgets and the pager follow. */
    method UpdateMemoPinned(identifier: string, pinned: bool, response: ApiResponse<MemoEntity>, now: int)
      returns (result: ApiResponse<MemoEntity>)
      modifies this
      ensures result == response
      ensures response.Failure? ==>
        State() == old(State()).(calls := old(calls) + [UpdatePinnedRequest(identifier, pinned)])
      ensures response.Success? ==>
        && |memos| == |old(memos)|
        && (var k := IndexOfFirst(old(memos), response.data.identifier);
            memos == if k >= 0 then old(memos)[k := response.data] else old(memos))
        && State() == old(State()).(memos := memos, refreshSignal := now,
                                    calls := old(calls) + [UpdatePinnedRequest(identifier, pinned), WidgetsUpdated])
    {
      calls := calls + [UpdatePinnedRequest(identifier, pinned)];
      if response.Success? {
        UpdateMemo(response.data);
        calls := calls + [WidgetsUpdated];
        TriggerPagingRefresh(now);
      }
      result := response;
    }

    /** Editing on the server, with the same follow-up as pinning; the answer is handed back. */
    method EditMemo(identifier: string, content: string, resourceList: Option<seq<ResourceEntity>>,
                    visibility: MemoVisibility, response: ApiResponse<MemoEntity>, now: int)
      returns (result: ApiResponse<MemoEntity>)
      modifies this
      ensures result == response
      ensures response.Failure? ==>
        State() == old(State()).(calls := old(calls) + [EditRequest(identifier, content, resourceList, visibility)])
      ensures response.Success? ==>
        && |memos| == |old(memos)|
        && (var k := IndexOfFirst(old(memos), response.data.identifier);
            memos == if k >= 0 then old(memos)[k := response.data] else old(memos))
        && State() == old(State()).(memos := memos, refreshSignal := now,
                                    calls := old(calls) + [EditRequest(identifier, content, resourceList, visibility),
                                                           WidgetsUpdated])
    {
      calls := calls + [EditRequest(identifier, content, resourceList, visibility)];
      if response.Success? {
        UpdateMemo(response.data);
        calls := calls + [WidgetsUpdated];
        TriggerPagingRefresh(now);
      }
      result := response;
    }

    /** Archiving on the server; on success the memo leaves the list. */
    method ArchiveMemo(identifier: string, response: ApiResponse<()>, now: int)
      returns (result: ApiResponse<()>)
      modifies this
      ensures result == response
      ensures response.Failure? ==>
        State() == old(State()).(calls := old(calls) + [ArchiveRequest(identifier)])
      ensures response.Success? ==>
        State() == old(State()).(memos := Without(old(memos), identifier), refreshSignal := now,
                                 calls := old(calls) + [ArchiveRequest(identifier), WidgetsUpdated])
    {
      calls := calls + [ArchiveRequest(identifier)];
      if response.Success? {
        RemoveMemo(identifier);
        calls := calls + [WidgetsUpdated];
        TriggerPagingRefresh(now);
      }
      result := response;
    }

    /** Deleting on the server; on success the memo leaves the list. */
    method DeleteMemo(identifier: string, response: ApiResponse<()>, now: int)
      returns (result: ApiResponse<()>)
      modifies this
      ensures result == response
      ensures response.Failure? ==>
        State() == old(State()).(calls := old(calls) + [DeleteRequest(identifier)])
      ensures response.Success? ==>
        State() == old(State()).(memos := Without(old(memos), identifier), refreshSignal := now,
                                 calls := old(calls) + [DeleteRequest(identifier), WidgetsUpdated])
    {
      calls := calls + [DeleteRequest(identifier)];
      if response.Success? {
        RemoveMemo(identifier);
        calls := calls + [WidgetsUpdated];
        TriggerPagingRefresh(now);
      }
      result := response;
    }

    // --- loading

    /** Tags are replaced by the server's list on success and kept otherwise. */
    method LoadTags(response: ApiResponse<seq<string>>)
      modifies this
      ensures State() == old(State()).(tags := TagsAfter(old(tags), response), calls := old(calls) + [ListTagsRequest])
    {
      calls := calls + [ListTagsRequest];
      if response.Success? {
        tags := response.data;
      }
    }

    /** The repository's memo list replaces the list, or its error message is shown. */
    method LoadMemosSnapshot(response: ApiResponse<seq<MemoEntity>>)
      modifies this
      ensures response.Success? ==>
        State() == old(State()).(memos := response.data, errorMessage := Option.None,
                                 calls := old(calls) + [ListMemosRequest])
      ensures response.Failure? ==>
        State() == old(State()).(errorMessage := Some(response.message), calls := old(calls) + [ListMemosRequest])
    {
      calls := calls + [ListMemosRequest];
      if response.Success? {
        ApplyMemos(response.data);
      } else {
        errorMessage := Some(response.message);
      }
    }

    /**
     * Automatic sync: nothing without `syncAfterLoad`; only the check unless it allows;
     * otherwise a non-forced sync, then widgets and tags on success, or the error message
     * unless the failure is an invalid access token.
     */
    method LoadMemos(syncAfterLoad: bool, compatibility: SyncCompatibility, syncResult: ApiResponse<()>,
                     tagsResponse: ApiResponse<seq<string>>)
      modifies this
      ensures !syncAfterLoad ==> State() == old(State())
      ensures syncAfterLoad && !compatibility.Allowed? ==>
        State() == old(State()).(calls := old(calls) + [CompatibilityCheck(true, Option.None)])
      ensures syncAfterLoad && compatibility.Allowed? && syncResult.Success? ==>
        State() == old(State()).(tags := TagsAfter(old(tags), tagsResponse),
                                 calls := old(calls) + [CompatibilityCheck(true, Option.None), SyncRequest(false),
                                                        WidgetsUpdated, ListTagsRequest])
      ensures syncAfterLoad && compatibility.Allowed? && syncResult.Failure? ==>
        State() == old(State()).(errorMessage := if syncResult.accessTokenInvalid then old(errorMessage)
                                                 else Some(syncResult.message),
                                 calls := old(calls) + [CompatibilityCheck(true, Option.None), SyncRequest(false)])
    {
      if !syncAfterLoad {
        return;
      }
      calls := calls + [CompatibilityCheck(true, Option.None)];
      if !compatibility.Allowed? {
        return;
      }
      calls := calls + [SyncRequest(false)];
      if syncResult.Success? {
        calls := calls + [WidgetsUpdated];
        LoadTags(tagsResponse);
      } else if !syncResult.accessTokenInvalid {
        errorMessage := Some(syncResult.message);
      }
    }

    /**
     * Manual sync: a blocked or unconfirmed check is reported without syncing; an allowed one
     * forces a sync, remembers an accepted higher version on success and reports the outcome.
     */
    method RefreshMemos(allowHigherV1Version: Option<string>, compatibility: SyncCompatibility,
                        syncResult: ApiResponse<()>, tagsResponse: ApiResponse<seq<string>>)
      returns (result: ManualSyncResult)
      modifies this
      ensures compatibility.Blocked? ==>
        && result == SyncBlocked(compatibility.blockedMessage.GetOr(SUPPORTED_VERSIONS_MESSAGE))
        && State() == old(State()).(calls := old(calls) + [CompatibilityCheck(false, allowHigherV1Version)])
      ensures compatibility.RequiresConfirmation? ==>
        && result == NeedsConfirmation(compatibility.version, compatibility.message)
        && State() == old(State()).(calls := old(calls) + [CompatibilityCheck(false, allowHigherV1Version)])
      ensures compatibility.Allowed? && syncResult.Success? ==>
        && result == Completed
        && State() == old(State()).(tags := TagsAfter(old(tags), tagsResponse),
                                    calls := old(calls) + [CompatibilityCheck(false, allowHigherV1Version), SyncRequest(true)]
                                             + (if allowHigherV1Version.Some? then [RememberVersion(allowHigherV1Version.value)] else [])
                                             + [WidgetsUpdated, ListTagsRequest])
      ensures compatibility.Allowed? && syncResult.Failure? ==>
        && result == Failed(syncResult.message)
        && State() == old(State()).(errorMessage := Some(syncResult.message),
                                    calls := old(calls) + [CompatibilityCheck(false, allowHigherV1Version), SyncRequest(true)])
    {
      calls := calls + [CompatibilityCheck(false, allowHigherV1Version)];
      match compatibility {
        case Blocked(message) =>
          return SyncBlocked(message.GetOr(SUPPORTED_VERSIONS_MESSAGE));
        case RequiresConfirmation(version, message) =>
          return NeedsConfirmation(version, message);
        case Allowed =>
      }
      calls := calls + [SyncRequest(true)];
      if syncResult.Success? {
        if allowHigherV1Version.Some? {
          calls := calls + [RememberVersion(allowHigherV1Version.value)];
        }
        calls := calls + [WidgetsUpdated];
        LoadTags(tagsResponse);
      } else {
        errorMessage := Some(syncResult.message);
        return Failed(syncResult.message);
      }
      result := Completed;
    }

    // --- the heatmap

    /**
     * Counts the memos per local date, then reads each heatmap day's count (zero when no
     * memo fell on it); memos on days outside the heatmap are not reported.
     */
    method CalculateMatrix(offsetSeconds: int) returns (result: seq<DailyUsageStat>)
      ensures |result| == |initialMatrix|
      ensures forall i :: 0 <= i < |result| ==>
        result[i].date == initialMatrix[i].date
        && result[i].count == CountOnDay(memos, initialMatrix[i].date, offsetSeconds)
    {
      var countMap: map<int, nat> := map[];
      var i := 0;
      while i < |memos|
        invariant 0 <= i <= |memos|
        invariant forall d :: CountOf(countMap, d) == CountOnDay(memos[..i], d, offsetSeconds)
      {
        var date := DayOf(memos[i].date, offsetSeconds);
        assert memos[..i + 1][..i] == memos[..i];
        countMap := countMap[date := CountOf(countMap, date) + 1];
        i := i + 1;
      }
      assert memos[..i] == memos;
      result := [];
      var j := 0;
      while j < |initialMatrix|
        invariant 0 <= j <= |initialMatrix|
        invariant |result| == j
        invariant forall k :: 0 <= k < j ==>
          result[k].date == initialMatrix[k].date
          && result[k].count == CountOnDay(memos, initialMatrix[k].date, offsetSeconds)
      {
        result := result + [initialMatrix[j].(count := CountOf(countMap, initialMatrix[j].date))];
        j := j + 1;
      }
    }

    /** Recomputes the heatmap after the list changed. */
    method RefreshMatrix(offsetSeconds: int)
      modifies this
      ensures |matrix| == |initialMatrix|
      ensures forall i :: 0 <= i < |matrix| ==>
        matrix[i].date == initialMatrix[i].date
        && matrix[i].count == CountOnDay(memos, initialMatrix[i].date, offsetSeconds)
      ensures State() == old(State()).(matrix := matrix)
    {
      matrix := CalculateMatrix(offsetSeconds);
    }
  }
}
