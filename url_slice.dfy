/**
 * The client's store slice: the list of short URLs the dashboard shows,
 * the list request's loading and error flags, and the stats panel with its
 * own flags. The reducer is a pure function from a state and an action to
 * the next state. The network requests behind the actions are not modelled:
 * their fulfilled and rejected payloads arrive as data in the actions.
 */
module UrlSlice {
  import opened Wrappers
  import UrlController

  /**
   * One URL as the client holds it. `accessCount` is absent in entries that
   * came from a create answer, present in those from the listing, update and
   * stats answers.
   */
  datatype UrlEntry = UrlEntry(
    id: nat,
    url: string,
    shortCode: string,
    accessCount: Option<nat>,
    createdAt: nat,
    updatedAt: nat)

  /** The entry a create answer decodes to. */
  function FromSummary(s: UrlController.Summary): (e: UrlEntry)
    ensures e.accessCount == None && e.shortCode == s.shortCode && e.url == s.url
  {
    UrlEntry(s.id, s.url, s.shortCode, None, s.createdAt, s.updatedAt)
  }

  /** The entry a listing, update or stats answer decodes to. */
  function FromDetail(d: UrlController.Detail): (e: UrlEntry)
    ensures e.accessCount == Some(d.accessCount) && e.shortCode == d.shortCode && e.url == d.url
  {
    UrlEntry(d.id, d.url, d.shortCode, Some(d.accessCount), d.createdAt, d.updatedAt)
  }

  datatype SliceState = SliceState(
    urls: seq<UrlEntry>,
    loading: bool,
    error: Option<string>,
    stats: Option<UrlEntry>,
    statsLoading: bool,
    statsError: Option<string>)

  /**
   * The two plain reducers and the pending, fulfilled and rejected cases of
   * the five requests. A rejected payload is the error message.
   */
  datatype Action =
    | ClearError
    | ClearStats
    | CreatePending | CreateFulfilled(created: UrlEntry) | CreateRejected(message: string)
    | GetAllPending | GetAllFulfilled(all: seq<UrlEntry>) | GetAllRejected(message: string)
    | UpdatePending | UpdateFulfilled(updated: UrlEntry) | UpdateRejected(message: string)
    | DeletePending | DeleteFulfilled(shortCode: string) | DeleteRejected(message: string)
    | StatsPending | StatsFulfilled(stats: UrlEntry) | StatsRejected(message: string)

  predicate IsListPending(a: Action)
  {
    a.CreatePending? || a.GetAllPending? || a.UpdatePending? || a.DeletePending?
  }

  predicate IsListRejected(a: Action)
  {
    a.CreateRejected? || a.GetAllRejected? || a.UpdateRejected? || a.DeleteRejected?
  }

  predicate IsStatsAction(a: Action)
  {
    a.StatsPending? || a.StatsFulfilled? || a.StatsRejected?
  }

  /** Nothing in flight, no error shown, no stats panel open. */
  predicate Idle(s: SliceState)
  {
    !s.loading && s.error == None && s.stats == None && !s.statsLoading && s.statsError == None
  }

  /** The slice's initial state. */
  function Initial(): (s: SliceState)
    ensures Idle(s) && s.urls == []
  {
    SliceState([], false, None, None, false, None)
  }

  /** The update answer's `map`: entries with the payload's code become the payload. */
  function ReplaceByCode(urls: seq<UrlEntry>, updated: UrlEntry): (r: seq<UrlEntry>)
    ensures |r| == |urls|
    ensures forall i | 0 <= i < |urls| ::
      r[i] == (if urls[i].shortCode == updated.shortCode then updated else urls[i])
  {
    if urls == [] then []
    else [if urls[0].shortCode == updated.shortCode then updated else urls[0]]
         + ReplaceByCode(urls[1..], updated)
  }

  /** The delete answer's `filter`: entries with the code are dropped. */
  function RemoveByCode(urls: seq<UrlEntry>, code: string): (r: seq<UrlEntry>)
    ensures |r| <= |urls|
    ensures forall x :: x in r <==> x in urls && x.shortCode != code
  {
    if urls == [] then []
    else if urls[0].shortCode != code then [urls[0]] + RemoveByCode(urls[1..], code)
    else RemoveByCode(urls[1..], code)
  }

  /** How many entries carry `code`. */
  function CountCode(urls: seq<UrlEntry>, code: string): nat
  {
    if urls == [] then 0
    else (if urls[0].shortCode == code then 1 else 0) + CountCode(urls[1..], code)
  }

  function Reduce(s: SliceState, a: Action): (t: SliceState)
    ensures !IsStatsAction(a) && !a.ClearStats? ==>
      t.stats == s.stats && t.statsLoading == s.statsLoading && t.statsError == s.statsError
    ensures IsStatsAction(a) || a.ClearStats? ==>
      t.urls == s.urls && t.loading == s.loading && t.error == s.error
    ensures a.ClearError? || IsListPending(a) || IsListRejected(a) ==> t.urls == s.urls
  {
    match a
    case ClearError => s.(error := None)
    case ClearStats => s.(stats := None, statsError := None)
    case CreatePending => s.(loading := true, error := None)
    case CreateFulfilled(e) => s.(loading := false, urls := [e] + s.urls)
    case CreateRejected(m) => s.(loading := false, error := Some(m))
    case GetAllPending => s.(loading := true, error := None)
    case GetAllFulfilled(all) => s.(loading := false, urls := all)
    case GetAllRejected(m) => s.(loading := false, error := Some(m))
    case UpdatePending => s.(loading := true, error := None)
    case UpdateFulfilled(e) => s.(loading := false, urls := ReplaceByCode(s.urls, e))
    case UpdateRejected(m) => s.(loading := false, error := Some(m))
    case DeletePending => s.(loading := true, error := None)
    case DeleteFulfilled(code) => s.(loading := false, urls := RemoveByCode(s.urls, code))
    case DeleteRejected(m) => s.(loading := false, error := Some(m))
    case StatsPending => s.(statsLoading := true, statsError := None)
    case StatsFulfilled(e) => s.(statsLoading := false, stats := Some(e))
    case StatsRejected(m) => s.(statsLoading := false, statsError := Some(m))
  }

  // ---------------------------------------------------------------- the list

  /** Filtering distributes over concatenation: kept entries keep their order. */
  lemma {:induction false} RemoveDistributes(a: seq<UrlEntry>, b: seq<UrlEntry>, code: string)
    ensures RemoveByCode(a + b, code) == RemoveByCode(a, code) + RemoveByCode(b, code)
  {
    if a == [] {
      assert a + b == b;
    } else {
      assert (a + b)[0] == a[0] && (a + b)[1..] == a[1..] + b;
      RemoveDistributes(a[1..], b, code);
    }
  }

  /** Exactly the entries carrying the code are dropped. */
  lemma {:induction false} RemoveCount(urls: seq<UrlEntry>, code: string)
    ensures |RemoveByCode(urls, code)| + CountCode(urls, code) == |urls|
  {
    if urls != [] {
      RemoveCount(urls[1..], code);
    }
  }

  /** Filtering out a code no entry carries changes nothing. */
  lemma {:induction false} RemoveAbsent(urls: seq<UrlEntry>, code: string)
    requires forall i | 0 <= i < |urls| :: urls[i].shortCode != code
    ensures RemoveByCode(urls, code) == urls
  {
    if urls != [] {
      RemoveAbsent(urls[1..], code);
    }
  }

  /** Filtering twice by the same code is filtering once. */
  lemma {:induction false} RemoveIdempotent(urls: seq<UrlEntry>, code: string)
    ensures RemoveByCode(RemoveByCode(urls, code), code) == RemoveByCode(urls, code)
  {
    var r := RemoveByCode(urls, code);
    forall i | 0 <= i < |r| ensures r[i].shortCode != code {
      assert r[i] in r;
    }
    RemoveAbsent(r, code);
  }

  /** Replacing by a code no entry carries changes nothing. */
  lemma ReplaceAbsent(urls: seq<UrlEntry>, updated: UrlEntry)
    requires forall i | 0 <= i < |urls| :: urls[i].shortCode != updated.shortCode
    ensures ReplaceByCode(urls, updated) == urls
  {
  }

  /** Deleting a code after updating it leaves what deleting alone leaves. */
  lemma {:induction false} ReplaceThenRemove(urls: seq<UrlEntry>, updated: UrlEntry)
    ensures RemoveByCode(ReplaceByCode(urls, updated), updated.shortCode) == RemoveByCode(urls, updated.shortCode)
  {
    if urls != [] {
      var r := ReplaceByCode(urls, updated);
      assert r[1..] == ReplaceByCode(urls[1..], updated);
      ReplaceThenRemove(urls[1..], updated);
    }
  }

  // ------------------------------------------------------------- the reducer

  /** A list request's pending case raises `loading` and clears `error`, nothing else. */
  lemma PendingStartsLoading(s: SliceState, a: Action)
    requires IsListPending(a)
    ensures Reduce(s, a) == s.(loading := true, error := None)
  {
  }

  /** A created URL goes to the front of the list. */
  lemma CreateFulfilledPrepends(s: SliceState, e: UrlEntry)
    ensures var t := Reduce(s, CreateFulfilled(e));
      && t.urls == [e] + s.urls && t.urls[0] == e && t.urls[1..] == s.urls
      && t == s.(loading := false, urls := t.urls)
  {
  }

  /** The listing answer replaces the list wholesale. */
  lemma GetAllFulfilledReplaces(s: SliceState, all: seq<UrlEntry>)
    ensures Reduce(s, GetAllFulfilled(all)) == s.(loading := false, urls := all)
  {
  }

  /**
   * The update answer replaces each entry carrying its code, keeps every
   * other entry where it was, and keeps the length.
   */
  lemma UpdateFulfilledReplaces(s: SliceState, e: UrlEntry)
    ensures var t := Reduce(s, UpdateFulfilled(e));
      && t == s.(loading := false, urls := t.urls)
      && |t.urls| == |s.urls|
      && (forall i | 0 <= i < |s.urls| && s.urls[i].shortCode == e.shortCode :: t.urls[i] == e)
      && (forall i | 0 <= i < |s.urls| && s.urls[i].shortCode != e.shortCode :: t.urls[i] == s.urls[i])
  {
  }

  /**
   * The delete answer drops exactly the entries carrying its code; the rest
   * stay, in their order.
   */
  lemma DeleteFulfilledFilters(s: SliceState, code: string)
    ensures var t := Reduce(s, DeleteFulfilled(code));
      && t == s.(loading := false, urls := t.urls)
      && (forall x :: x in t.urls <==> x in s.urls && x.shortCode != code)
      && |t.urls| == |s.urls| - CountCode(s.urls, code)
  {
    RemoveCount(s.urls, code);
  }

  /** Deleting what was just created, under a fresh code, restores the list. */
  lemma DeleteUndoesCreate(s: SliceState, e: UrlEntry)
    requires forall i | 0 <= i < |s.urls| :: s.urls[i].shortCode != e.shortCode
    ensures Reduce(Reduce(s, CreateFulfilled(e)), DeleteFulfilled(e.shortCode)).urls == s.urls
  {
    var t := Reduce(s, CreateFulfilled(e));
    assert t.urls == [e] + s.urls;
    var u := Reduce(t, DeleteFulfilled(e.shortCode));
    assert u.urls == RemoveByCode([e] + s.urls, e.shortCode);
    RemoveDistributes([e], s.urls, e.shortCode);
    assert [e][1..] == [];
    assert RemoveByCode([e], e.shortCode) == [];
    RemoveAbsent(s.urls, e.shortCode);
  }

  /** A list request's rejected case ends loading and shows its message; the list stays. */
  lemma RejectedShowsError(s: SliceState, a: Action)
    requires IsListRejected(a)
    ensures Reduce(s, a) == s.(loading := false, error := Some(a.message))
  {
  }

  /** The stats cases leave the list, `loading` and `error` alone. */
  lemma StatsCasesFrame(s: SliceState, a: Action)
    requires IsStatsAction(a)
    ensures var t := Reduce(s, a);
      && t.urls == s.urls && t.loading == s.loading && t.error == s.error
      && (a.StatsPending? ==> t == s.(statsLoading := true, statsError := None))
      && (a.StatsFulfilled? ==> t == s.(statsLoading := false, stats := Some(a.stats)))
      && (a.StatsRejected? ==> t == s.(statsLoading := false, statsError := Some(a.message)))
  {
  }

  /** `clearError` empties `error` only, and doing it twice is doing it once. */
  lemma ClearErrorOnlyError(s: SliceState)
    ensures Reduce(s, ClearError) == s.(error := None)
    ensures Reduce(Reduce(s, ClearError), ClearError) == Reduce(s, ClearError)
  {
  }

  /** `clearStats` empties `stats` and `statsError` only, and is idempotent. */
  lemma ClearStatsOnlyStats(s: SliceState)
    ensures Reduce(s, ClearStats) == s.(stats := None, statsError := None)
    ensures Reduce(Reduce(s, ClearStats), ClearStats) == Reduce(s, ClearStats)
  {
  }
}
