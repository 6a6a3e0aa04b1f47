/**
 * The mapping engine: the seven request handlers of the URL shortener,
 * as methods on an in-memory store that stands for the document collection.
 * The store maps each short code to its record and holds the auto-increment
 * counter for `urlId`. The clock, the generated code and the failure of a
 * database round trip are parameters of the handlers.
 */
module UrlController {
  import opened Wrappers
  import opened UrlModel

  /** The body of the create and get-original answers: no `accessCount`. */
  datatype Summary = Summary(id: nat, url: string, shortCode: string, createdAt: nat, updatedAt: nat)

  /** The body of the update, stats and listing answers: with `accessCount`. */
  datatype Detail = Detail(id: nat, url: string, shortCode: string, accessCount: nat, createdAt: nat, updatedAt: nat)

  datatype Body =
    | ErrorBody(error: string)
    | SummaryBody(summary: Summary)
    | DetailBody(detail: Detail)
    | ListBody(items: seq<Detail>)

  /** An HTTP answer: a JSON body with a status, a redirect, or an empty 204. */
  datatype Response = Json(status: nat, body: Body) | Redirect(location: string) | NoContent
  {
    function Status(): nat
    {
      match this
      case Json(s, _) => s
      case Redirect(_) => 302
      case NoContent => 204
    }
  }

  const NotFound := "URL not found"
  const NotFoundOrDeleted := "URL not found or has been deleted"
  const CreateFailed := "Failed to create short URL"
  const RetrieveFailed := "Failed to retrieve URL"
  const UpdateFailed := "Failed to update URL"
  const DeleteFailed := "Failed to delete URL"
  const StatsFailed := "Failed to retrieve stats"
  const RedirectFailed := "Failed to redirect to the original URL"
  const ListFailed := "Failed to retrieve URLs"

  function SummaryOf(r: UrlRecord): Summary
  {
    Summary(r.urlId, r.url, r.shortCode, r.createdAt, r.updatedAt)
  }

  function DetailOf(r: UrlRecord): Detail
  {
    Detail(r.urlId, r.url, r.shortCode, r.accessCount, r.createdAt, r.updatedAt)
  }

  /** The draft the create handler builds: the given url, the code and two clock readings. */
  function CreateDraft(url: Option<string>, code: string, createdAt: nat, updatedAt: nat): (d: Draft)
    ensures MeetsRequired(d) <==> Present(url) && code != ""
    ensures d.accessCount.None?
    ensures forall id, builtAt | MeetsRequired(d) :: Document(d, id, builtAt).createdAt == createdAt
    ensures forall id, builtAt | MeetsRequired(d) :: Document(d, id, builtAt).updatedAt == updatedAt
  {
    Draft(url, Some(code), Some(createdAt), Some(updatedAt), None)
  }

  /** Newest first: `createdAt` never increases along the sequence. */
  ghost predicate NewestFirst(items: seq<Detail>)
  {
    forall i, j | 0 <= i < j < |items| :: items[i].createdAt >= items[j].createdAt
  }

  /**
   * `items` lists every stored record exactly once, as its detail view,
   * newest first.
   */
  ghost predicate IsListing(records: map<string, UrlRecord>, items: seq<Detail>)
  {
    && |items| == |records|
    && NewestFirst(items)
    && (forall i | 0 <= i < |items| ::
          items[i].shortCode in records && items[i] == DetailOf(records[items[i].shortCode]))
    && (forall i, j | 0 <= i < j < |items| :: items[i].shortCode != items[j].shortCode)
    && (forall code | code in records :: DetailOf(records[code]) in items)
  }

  /**
   * Where `d` goes in a newest-first sequence: after every entry at least
   * as new, before every strictly older one.
   */
  function InsertionPoint(items: seq<Detail>, d: Detail): (p: nat)
    requires NewestFirst(items)
    ensures p <= |items|
    ensures forall i | 0 <= i < p :: items[i].createdAt >= d.createdAt
    ensures forall i | p <= i < |items| :: items[i].createdAt < d.createdAt
  {
    if items == [] || items[0].createdAt < d.createdAt then 0
    else 1 + InsertionPoint(items[1..], d)
  }

  /** Splicing `d` in at its insertion point keeps the sequence newest first. */
  lemma InsertKeepsNewestFirst(items: seq<Detail>, d: Detail, p: nat)
    requires NewestFirst(items) && p <= |items|
    requires forall i | 0 <= i < p :: items[i].createdAt >= d.createdAt
    requires forall i | p <= i < |items| :: items[i].createdAt < d.createdAt
    ensures NewestFirst(items[..p] + [d] + items[p..])
  {
    var r := items[..p] + [d] + items[p..];
    forall i, j | 0 <= i < j < |r| ensures r[i].createdAt >= r[j].createdAt {
      if j < p {
        assert r[i] == items[i] && r[j] == items[j];
      } else if j == p {
        assert r[i] == items[i] && r[j] == d;
      } else if i < p {
        assert r[i] == items[i] && r[j] == items[j - 1];
      } else if i == p {
        assert r[i] == d && r[j] == items[j - 1];
      } else {
        assert r[i] == items[i - 1] && r[j] == items[j - 1];
      }
    }
  }

  /**
   * `items` lists, newest first and each once, exactly the records whose
   * codes are no longer in `remaining`.
   */
  ghost predicate PartialListing(records: map<string, UrlRecord>, remaining: set<string>, items: seq<Detail>)
  {
    && NewestFirst(items)
    && (forall i | 0 <= i < |items| ::
          items[i].shortCode in records && items[i].shortCode !in remaining
          && items[i] == DetailOf(records[items[i].shortCode]))
    && (forall i, j | 0 <= i < j < |items| :: items[i].shortCode != items[j].shortCode)
    && (forall code | code in records && code !in remaining :: DetailOf(records[code]) in items)
  }

  /** Where each entry of a splice comes from. */
  lemma SpliceAt(items: seq<Detail>, d: Detail, p: nat)
    requires p <= |items|
    ensures var r := items[..p] + [d] + items[p..];
      && |r| == |items| + 1
      && (forall i | 0 <= i < p :: r[i] == items[i])
      && r[p] == d
      && (forall i | p < i < |r| :: r[i] == items[i - 1])
  {
  }

  /** Moving one code from `remaining` into the listing at its insertion point. */
  lemma ListingStep(records: map<string, UrlRecord>, remaining: set<string>, items: seq<Detail>, code: string, p: nat)
    requires PartialListing(records, remaining, items)
    requires code in remaining && code in records && records[code].shortCode == code
    requires p <= |items|
    requires forall i | 0 <= i < p :: items[i].createdAt >= records[code].createdAt
    requires forall i | p <= i < |items| :: items[i].createdAt < records[code].createdAt
    ensures PartialListing(records, remaining - {code}, items[..p] + [DetailOf(records[code])] + items[p..])
  {
    var d := DetailOf(records[code]);
    var r := items[..p] + [d] + items[p..];
    InsertKeepsNewestFirst(items, d, p);
    SpliceAt(items, d, p);
    SpliceCodesDistinct(records, remaining, items, d, p);
    forall c | c in records && c !in remaining - {code} ensures DetailOf(records[c]) in r {
      if c != code {
        var k :| 0 <= k < |items| && items[k] == DetailOf(records[c]);
        assert r[if k < p then k else k + 1] == items[k];
      } else {
        assert r[p] == d;
      }
    }
  }

  /** The spliced entry's code is new, so codes stay pairwise distinct. */
  lemma SpliceCodesDistinct(records: map<string, UrlRecord>, remaining: set<string>, items: seq<Detail>, d: Detail, p: nat)
    requires PartialListing(records, remaining, items)
    requires d.shortCode in remaining && p <= |items|
    ensures var r := items[..p] + [d] + items[p..];
      forall i, j | 0 <= i < j < |r| :: r[i].shortCode != r[j].shortCode
  {
    var r := items[..p] + [d] + items[p..];
    SpliceAt(items, d, p);
    forall i, j | 0 <= i < j < |r| ensures r[i].shortCode != r[j].shortCode {
      var i' := if i < p then i else i - 1;
      var j' := if j < p then j else j - 1;
      if i == p {
        assert r[j] == items[j'];
      } else if j == p {
        assert r[i] == items[i'];
      } else {
        assert r[i] == items[i'] && r[j] == items[j'] && i' < j';
      }
    }
  }

  /** No two records share a `urlId`. */
  ghost predicate DistinctIds(records: map<string, UrlRecord>)
  {
    forall c1, c2 | c1 in records && c2 in records && c1 != c2 :: records[c1].urlId != records[c2].urlId
  }

  /** `owners` maps each record's `urlId` back to its code. */
  ghost predicate OwnedIds(records: map<string, UrlRecord>, owners: map<nat, string>)
  {
    forall code | code in records :: records[code].urlId in owners && owners[records[code].urlId] == code
  }

  /** An id that maps back to a single code belongs to a single record. */
  lemma OwnedIdsAreDistinct(records: map<string, UrlRecord>, owners: map<nat, string>)
    requires OwnedIds(records, owners)
    ensures DistinctIds(records)
  {
  }

  /**
   * The collection. `records` is keyed by short code; `nextId` is the next
   * value of the `urlId` counter.
   */
  class UrlStore {
    var records: map<string, UrlRecord>
    var nextId: nat
    /** Which code each handed-out `urlId` went to. */
    ghost var owners: map<nat, string>

    /**
     * Every record sits under its own code, codes have the generated length,
     * ids are below the counter and each id maps back to its own record's
     * code, so no two records share an id (OwnedIdsAreDistinct).
     */
    ghost predicate Valid()
      reads this
    {
      && (forall code | code in records ::
            records[code].shortCode == code && |code| == CodeLength && records[code].urlId < nextId)
      && OwnedIds(records, owners)
    }

    constructor ()
      ensures Valid()
      ensures records == map[] && nextId == FirstUrlId
    {
      records := map[];
      nextId := FirstUrlId;
      owners := map[];
    }

    /**
     * POST /shorten. Saves a new record under `candidate`, the generator's
     * 8-character code; there is no retry. The save fails (500) when the
     * database fails, the url is missing or empty, or the code is taken.
     */
    method CreateShortUrl(url: Option<string>, candidate: string, createdAt: nat, updatedAt: nat, fault: bool)
      returns (resp: Response)
      requires Valid()
      requires |candidate| == CodeLength
      modifies this
      ensures Valid()
      ensures var saved := !fault && Present(url) && candidate !in old(records);
        && (saved ==>
              && records == old(records)[candidate := UrlRecord(old(nextId), url.value, candidate, createdAt, updatedAt, 0)]
              && nextId == old(nextId) + 1
              && (forall code | code in old(records) :: old(records)[code].urlId < records[candidate].urlId)
              && resp == Json(201, SummaryBody(SummaryOf(records[candidate]))))
        && (!saved ==>
              && records == old(records) && nextId == old(nextId)
              && resp == Json(500, ErrorBody(CreateFailed)))
    {
      var draft := CreateDraft(url, candidate, createdAt, updatedAt);
      if fault || !MeetsRequired(draft) || candidate in records {
        resp := Json(500, ErrorBody(CreateFailed));
        return;
      }
      var saved := Document(draft, nextId, createdAt);
      records := records[candidate := saved];
      owners := owners[nextId := candidate];
      nextId := nextId + 1;
      resp := Json(201, SummaryBody(SummaryOf(saved)));
    }

    /**
     * GET /shorten/{code}. Counts one access: `accessCount` goes up by one and
     * `updatedAt` becomes `now`; the answer is the updated record without its
     * count. Saving the counted record runs the required check on the whole
     * document, so a record whose url an update emptied fails with 500 and
     * is not counted.
     */
    method GetOriginalUrl(code: string, now: nat, fault: bool) returns (resp: Response)
      requires Valid()
      modifies this
      ensures Valid() && nextId == old(nextId)
      ensures fault ==> records == old(records) && resp == Json(500, ErrorBody(RetrieveFailed))
      ensures !fault && code !in old(records) ==>
        records == old(records) && resp == Json(404, ErrorBody(NotFound))
      ensures !fault && code in old(records) && !PassesRequired(old(records)[code]) ==>
        records == old(records) && resp == Json(500, ErrorBody(RetrieveFailed))
      ensures !fault && code in old(records) && PassesRequired(old(records)[code]) ==>
        && records == old(records)[code := old(records)[code].(accessCount := old(records)[code].accessCount + 1, updatedAt := now)]
        && resp == Json(200, SummaryBody(SummaryOf(records[code])))
    {
      if fault {
        return Json(500, ErrorBody(RetrieveFailed));
      }
      if code !in records {
        return Json(404, ErrorBody(NotFound));
      }
      var url := records[code];
      url := url.(accessCount := url.accessCount + 1, updatedAt := now);
      if !PassesRequired(url) {
        return Json(500, ErrorBody(RetrieveFailed));
      }
      records := records[code := url];
      resp := Json(200, SummaryBody(SummaryOf(url)));
    }

    /**
     * PUT /shorten/{code}. Replaces `url` and sets `updatedAt` to `now`,
     * nothing else; the answer is the updated record with its count.
     */
    method UpdateShortUrl(code: string, url: string, now: nat, fault: bool) returns (resp: Response)
      requires Valid()
      modifies this
      ensures Valid() && nextId == old(nextId)
      ensures fault ==> records == old(records) && resp == Json(500, ErrorBody(UpdateFailed))
      ensures !fault && code !in old(records) ==>
        records == old(records) && resp == Json(404, ErrorBody(NotFound))
      ensures !fault && code in old(records) ==>
        && records == old(records)[code := old(records)[code].(url := url, updatedAt := now)]
        && resp == Json(200, DetailBody(DetailOf(records[code])))
    {
      if fault {
        return Json(500, ErrorBody(UpdateFailed));
      }
      if code !in records {
        return Json(404, ErrorBody(NotFound));
      }
      var updated := records[code].(url := url, updatedAt := now);
      records := records[code := updated];
      resp := Json(200, DetailBody(DetailOf(updated)));
    }

    /** DELETE /shorten/{code}. Removes the record for good; 204 with an empty body. */
    method DeleteShortUrl(code: string, fault: bool) returns (resp: Response)
      requires Valid()
      modifies this
      ensures Valid() && nextId == old(nextId)
      ensures fault ==> records == old(records) && resp == Json(500, ErrorBody(DeleteFailed))
      ensures !fault && code !in old(records) ==>
        records == old(records) && resp == Json(404, ErrorBody(NotFound))
      ensures !fault && code in old(records) ==>
        records == old(records) - {code} && resp == NoContent
    {
      if fault {
        return Json(500, ErrorBody(DeleteFailed));
      }
      if code !in records {
        return Json(404, ErrorBody(NotFound));
      }
      records := records - {code};
      resp := NoContent;
    }

    /** GET /shorten/{code}/stats. Reads only: the stored record with its count. */
    method GetUrlStats(code: string, fault: bool) returns (resp: Response)
      requires Valid()
      ensures fault ==> resp == Json(500, ErrorBody(StatsFailed))
      ensures !fault && code !in records ==> resp == Json(404, ErrorBody(NotFound))
      ensures !fault && code in records ==> resp == Json(200, DetailBody(DetailOf(records[code])))
    {
      if fault {
        return Json(500, ErrorBody(StatsFailed));
      }
      if code !in records {
        return Json(404, ErrorBody(NotFound));
      }
      resp := Json(200, DetailBody(DetailOf(records[code])));
    }

    /**
     * GET /r/{code}. Counts one access exactly as get-original does, failing
     * the same way on an emptied url, and redirects to the stored url.
     */
    method RedirectUrl(code: string, now: nat, fault: bool) returns (resp: Response)
      requires Valid()
      modifies this
      ensures Valid() && nextId == old(nextId)
      ensures fault ==> records == old(records) && resp == Json(500, ErrorBody(RedirectFailed))
      ensures !fault && code !in old(records) ==>
        records == old(records) && resp == Json(404, ErrorBody(NotFoundOrDeleted))
      ensures !fault && code in old(records) && !PassesRequired(old(records)[code]) ==>
        records == old(records) && resp == Json(500, ErrorBody(RedirectFailed))
      ensures !fault && code in old(records) && PassesRequired(old(records)[code]) ==>
        && records == old(records)[code := old(records)[code].(accessCount := old(records)[code].accessCount + 1, updatedAt := now)]
        && resp == Redirect(old(records)[code].url)
    {
      if fault {
        return Json(500, ErrorBody(RedirectFailed));
      }
      if code !in records {
        return Json(404, ErrorBody(NotFoundOrDeleted));
      }
      var url := records[code];
      url := url.(accessCount := url.accessCount + 1, updatedAt := now);
      if !PassesRequired(url) {
        return Json(500, ErrorBody(RedirectFailed));
      }
      records := records[code := url];
      resp := Redirect(url.url);
    }

    /**
     * GET /. Every record exactly once, newest `createdAt` first. Records
     * with equal `createdAt` may come in any order.
     */
    method GetAllUrls(fault: bool) returns (resp: Response)
      requires Valid()
      ensures fault ==> resp == Json(500, ErrorBody(ListFailed))
      ensures !fault ==> resp.Json? && resp.status == 200 && resp.body.ListBody? && IsListing(records, resp.body.items)
    {
      if fault {
        return Json(500, ErrorBody(ListFailed));
      }
      var items: seq<Detail> := [];
      var remaining := records.Keys;
      while remaining != {}
        invariant remaining <= records.Keys
        invariant |items| + |remaining| == |records|
        invariant PartialListing(records, remaining, items)
        decreases |remaining|
      {
        var code :| code in remaining;
        var d := DetailOf(records[code]);
        var p := InsertionPoint(items, d);
        ListingStep(records, remaining, items, code, p);
        items := items[..p] + [d] + items[p..];
        remaining := remaining - {code};
      }
      resp := Json(200, ListBody(items));
    }
  }

  /**
   * After a delete answers 204, the code is gone for good: get-original and
   * update on it answer 404, and the store is the old one without that code.
   */
  method DeletedCodeStaysGone(store: UrlStore, code: string, url: string, now: nat)
    returns (deleted: Response, fetched: Response, updated: Response)
    requires store.Valid()
    modifies store
    ensures deleted == NoContent <==> code in old(store.records)
    ensures deleted == NoContent ==>
      && fetched == Json(404, ErrorBody(NotFound))
      && updated == Json(404, ErrorBody(NotFound))
    ensures store.records == old(store.records) - {code}
  {
    deleted := store.DeleteShortUrl(code, false);
    if code !in old(store.records) {
      assert old(store.records) - {code} == old(store.records);
    }
    fetched := store.GetOriginalUrl(code, now, false);
    updated := store.UpdateShortUrl(code, url, now, false);
  }

  /**
   * After a delete answers 204, stats and redirect on the code answer 404
   * as well.
   */
  method DeletedCodeHasNoStats(store: UrlStore, code: string, now: nat)
    returns (deleted: Response, stats: Response, redirected: Response)
    requires store.Valid()
    modifies store
    ensures deleted == NoContent <==> code in old(store.records)
    ensures deleted == NoContent ==>
      && stats == Json(404, ErrorBody(NotFound))
      && redirected == Json(404, ErrorBody(NotFoundOrDeleted))
    ensures store.records == old(store.records) - {code}
  {
    deleted := store.DeleteShortUrl(code, false);
    if code !in old(store.records) {
      assert old(store.records) - {code} == old(store.records);
    }
    stats := store.GetUrlStats(code, false);
    redirected := store.RedirectUrl(code, now, false);
  }

  /**
   * Create, follow the short link once, then ask for stats: the redirect goes
   * to the original url and the stats show exactly one access.
   */
  method CreateRedirectStats(store: UrlStore, url: string, candidate: string, t0: nat, t0u: nat, t1: nat)
    returns (created: Response, redirected: Response, stats: Response)
    requires store.Valid()
    requires |candidate| == CodeLength && url != "" && candidate !in store.records
    modifies store
    ensures created.Status() == 201 && created.body.SummaryBody? && created.body.summary.shortCode == candidate
    ensures redirected == Redirect(url)
    ensures stats.Json? && stats.status == 200 && stats.body.DetailBody?
    ensures stats.body.detail.accessCount == 1 && stats.body.detail.url == url
    ensures stats.body.detail.id == created.body.summary.id
  {
    created := store.CreateShortUrl(Some(url), candidate, t0, t0u, false);
    assert Present(Some(url));
    ghost var id := store.records[candidate].urlId;
    assert store.records[candidate] == UrlRecord(id, url, candidate, t0, t0u, 0);
    redirected := store.RedirectUrl(candidate, t1, false);
    assert store.records[candidate] == UrlRecord(id, url, candidate, t0, t1, 1);
    stats := store.GetUrlStats(candidate, false);
  }

  /**
   * An update may store an empty url, since it runs no validators. After that,
   * following or fetching the link fails with 500 at the save of the counted
   * record, and the record, its count included, stays as the update left it.
   */
  method EmptiedUrlStopsCounting(store: UrlStore, code: string, t0: nat, t1: nat)
    returns (updated: Response, fetched: Response, redirected: Response)
    requires store.Valid() && code in store.records
    modifies store
    ensures updated.Json? && updated.status == 200
    ensures fetched == Json(500, ErrorBody(RetrieveFailed))
    ensures redirected == Json(500, ErrorBody(RedirectFailed))
    ensures store.records == old(store.records)[code := old(store.records)[code].(url := "", updatedAt := t0)]
    ensures store.records[code].accessCount == old(store.records)[code].accessCount
  {
    updated := store.UpdateShortUrl(code, "", t0, false);
    fetched := store.GetOriginalUrl(code, t1, false);
    redirected := store.RedirectUrl(code, t1, false);
  }
}
