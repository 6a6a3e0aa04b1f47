/**
 * The few computations of the dashboard page that are not rendering: how a
 * long URL is shortened for display, how the copyable short link is built,
 * the click-count fallback, and the guards that keep empty input from being
 * sent.
 */
module UrlDashboard {
  import opened Wrappers
  import UrlModel
  import UrlController
  import UrlSlice

  /** URLs longer than this are cut for display. */
  const MaxShown: nat := 50
  const Ellipsis := "..."

  /** The dashboard's API base when no backend URL is configured. */
  const DefaultBase := "http://localhost:5000"

  /** The piece of the base the short link drops. */
  const ApiSegment := "/api"

  /** A URL as the table shows it: cut to 50 characters plus "..." when longer. */
  function Truncate(url: string): (shown: string)
    ensures |url| <= MaxShown ==> shown == url
    ensures |url| > MaxShown ==>
      && |shown| == MaxShown + |Ellipsis|
      && shown[..MaxShown] == url[..MaxShown]
      && shown[MaxShown..] == Ellipsis
  {
    if |url| > MaxShown then url[..MaxShown] + Ellipsis else url
  }

  /** Cutting an already cut URL changes nothing. */
  lemma TruncateIdempotent(url: string)
    ensures Truncate(Truncate(url)) == Truncate(url)
  {
    var shown := Truncate(url);
    if |url| > MaxShown {
      assert shown[..MaxShown] + Ellipsis == shown;
    }
  }

  // ------------------------------------------------------------ short links

  /** `pat` occurs in `s` starting at `k`. */
  predicate OccursAt(s: string, pat: string, k: nat)
  {
    k + |pat| <= |s| && s[k..k + |pat|] == pat
  }

  predicate NoOccurrence(s: string, pat: string)
  {
    forall k | 0 <= k <= |s| :: !OccursAt(s, pat, k)
  }

  /** The first occurrence of `pat` in `s` at or after `from`, or -1. */
  function IndexOfFrom(s: string, pat: string, from: nat): (i: int)
    requires from <= |s|
    ensures i == -1 || (from <= i <= |s| && OccursAt(s, pat, i))
    ensures i == -1 ==> forall k | from <= k <= |s| :: !OccursAt(s, pat, k)
    ensures i != -1 ==> forall k | from <= k < i :: !OccursAt(s, pat, k)
    decreases |s| - from
  {
    if OccursAt(s, pat, from) then from
    else if from == |s| then -1
    else IndexOfFrom(s, pat, from + 1)
  }

  /** String `indexOf`: the first occurrence, or -1 when there is none. */
  function IndexOf(s: string, pat: string): (i: int)
    ensures i == -1 <==> NoOccurrence(s, pat)
    ensures i != -1 ==> 0 <= i <= |s| && OccursAt(s, pat, i)
    ensures i != -1 ==> forall k | 0 <= k < i :: !OccursAt(s, pat, k)
  {
    IndexOfFrom(s, pat, 0)
  }

  /** String `replace` with a string pattern: only the first occurrence is replaced. */
  function ReplaceFirst(s: string, pat: string, rep: string): (r: string)
    ensures NoOccurrence(s, pat) ==> r == s
    ensures forall k | 0 <= k <= |s| && OccursAt(s, pat, k) && (forall j | 0 <= j < k :: !OccursAt(s, pat, j)) ::
      r == s[..k] + rep + s[k + |pat|..]
  {
    var i := IndexOf(s, pat);
    if i == -1 then s else s[..i] + rep + s[i + |pat|..]
  }

  /** The link the copy button puts on the clipboard, as the dashboard builds it. */
  function ShortLink(base: string, shortCode: string): (link: string)
    ensures |link| >= |shortCode| + 3 && link[|link| - |shortCode| - 3..] == "/r/" + shortCode
  {
    ReplaceFirst(base, ApiSegment, "") + "/r/" + shortCode
  }

  /** A base without "/api" is used as it is. */
  lemma ShortLinkKeepsPlainBase(base: string, shortCode: string)
    requires NoOccurrence(base, ApiSegment)
    ensures ShortLink(base, shortCode) == base + "/r/" + shortCode
  {
  }

  /** "/api" cannot start inside `pre` and run into a following "/api". */
  lemma FirstApiAfter(pre: string, post: string)
    requires NoOccurrence(pre, ApiSegment)
    ensures var s := pre + ApiSegment + post;
      OccursAt(s, ApiSegment, |pre|) && forall k | 0 <= k < |pre| :: !OccursAt(s, ApiSegment, k)
  {
    var s := pre + ApiSegment + post;
    assert s[|pre|..|pre| + 4] == ApiSegment;
    forall k | 0 <= k < |pre| ensures !OccursAt(s, ApiSegment, k) {
      if k + 4 <= |pre| {
        assert s[k..k + 4] == pre[k..k + 4];
        assert !OccursAt(pre, ApiSegment, k);
      } else {
        var off := |pre| - k;
        assert 1 <= off <= 3 && s[|pre|] == '/' && s[k..k + 4][off] == s[|pre|];
        assert ApiSegment[off] != '/';
      }
    }
  }

  /** Removing the first "/api" of `pre + "/api" + post` leaves `pre + post`. */
  lemma StripFirstApi(pre: string, post: string)
    requires NoOccurrence(pre, ApiSegment)
    ensures ReplaceFirst(pre + ApiSegment + post, ApiSegment, "") == pre + post
  {
    var s := pre + ApiSegment + post;
    FirstApiAfter(pre, post);
    assert s[..|pre|] == pre && s[|pre| + 4..] == post;
    assert ReplaceFirst(s, ApiSegment, "") == s[..|pre|] + "" + s[|pre| + 4..];
  }

  /** Only the first "/api" of the base is dropped; the rest of the base stays. */
  lemma ShortLinkDropsFirstApi(pre: string, post: string, shortCode: string)
    requires NoOccurrence(pre, ApiSegment)
    ensures ShortLink(pre + ApiSegment + post, shortCode) == pre + post + "/r/" + shortCode
  {
    StripFirstApi(pre, post);
  }

  /**
   * The server path that reaches the redirect handler for a code: the router
   * is mounted under "/api" and the redirect route is "/r/:shortCode", whose
   * parameter is one non-empty path segment.
   */
  const RedirectPrefix := "/api/r/"

  function RoutedRedirectCode(path: string): (code: Option<string>)
    ensures code.Some? ==> path == RedirectPrefix + code.value && code.value != "" && '/' !in code.value
    ensures forall c | c != "" && '/' !in c && path == RedirectPrefix + c :: code == Some(c)
  {
    if |path| > |RedirectPrefix| && path[..|RedirectPrefix|] == RedirectPrefix && '/' !in path[|RedirectPrefix|..]
    then Some(path[|RedirectPrefix|..])
    else None
  }

  /**
   * As written, the copied link never reaches the redirect handler: for the
   * default dashboard base and for any base of the form origin + "/api" (the
   * form the request thunks need), the link's path is "/r/" + code, which the
   * server does not route to the redirect handler.
   */
  lemma ShortLinkMissesRedirectRoute(origin: string, shortCode: string)
    requires NoOccurrence(origin, ApiSegment)
    ensures ShortLink(origin + ApiSegment, shortCode) == origin + "/r/" + shortCode
    ensures RoutedRedirectCode("/r/" + shortCode) == None
  {
    ShortLinkDropsFirstApi(origin, "", shortCode);
    assert origin + ApiSegment + "" == origin + ApiSegment;
    assert ("/r/" + shortCode)[1] == 'r';
  }

  /** A string with no 'i' has no "/api" in it. */
  lemma NoApiWithoutI(s: string)
    requires 'i' !in s
    ensures NoOccurrence(s, ApiSegment)
  {
    forall k | 0 <= k <= |s| ensures !OccursAt(s, ApiSegment, k) {
      if k + 4 <= |s| {
        assert s[k..k + 4][3] == s[k + 3] && s[k + 3] in s;
      }
    }
  }

  /** The concrete case: the default base and the code "abcdefgh". */
  lemma DefaultShortLinkMissesRoute()
    ensures ShortLink(DefaultBase, "abcdefgh") == "http://localhost:5000/r/abcdefgh"
    ensures RoutedRedirectCode("/r/abcdefgh") == None
  {
    assert 'i' !in DefaultBase;
    NoApiWithoutI(DefaultBase);
    ShortLinkKeepsPlainBase(DefaultBase, "abcdefgh");
    assert "/r/abcdefgh"[1] == 'r';
  }

  /** The link that does reach the redirect handler: the API base kept whole. */
  function RedirectLink(apiBase: string, shortCode: string): string
  {
    apiBase + "/r/" + shortCode
  }

  /** With a base origin + "/api", the corrected link's path routes to the redirect for the code. */
  lemma RedirectLinkReachesRoute(origin: string, shortCode: string)
    requires shortCode != "" && '/' !in shortCode
    ensures RedirectLink(origin + ApiSegment, shortCode) == origin + RedirectPrefix + shortCode
    ensures RoutedRedirectCode(RedirectPrefix + shortCode) == Some(shortCode)
  {
    var path := RedirectPrefix + shortCode;
    assert path[..|RedirectPrefix|] == RedirectPrefix && path[|RedirectPrefix|..] == shortCode;
  }

  // ------------------------------------------------------------ click count

  /** The clicks column: the entry's count when it is truthy, otherwise 0. */
  function ClickCount(e: UrlSlice.UrlEntry): (n: nat)
    ensures e.accessCount.Some? ==> n == e.accessCount.value
    ensures e.accessCount.None? ==> n == 0
  {
    if e.accessCount.Some? && e.accessCount.value != 0 then e.accessCount.value else 0
  }

  /** A URL just created shows 0 clicks: the create answer has no count. */
  lemma CreatedEntryShowsNoClicks(s: UrlController.Summary)
    ensures ClickCount(UrlSlice.FromSummary(s)) == 0
  {
  }

  /** A listed, updated or stats entry shows the server's count. */
  lemma DetailedEntryShowsCount(d: UrlController.Detail)
    ensures ClickCount(UrlSlice.FromDetail(d)) == d.accessCount
  {
  }

  // ----------------------------------------------------------------- guards

  /** The request a handler starts. */
  datatype Dispatch = DispatchCreate(originalUrl: string) | DispatchUpdate(shortCode: string, url: string)

  /** Submitting the form starts a create only for non-empty input. */
  function HandleCreate(originalUrl: string): (d: Option<Dispatch>)
    ensures d == None <==> originalUrl == ""
    ensures d != None ==> d == Some(DispatchCreate(originalUrl))
  {
    if originalUrl == "" then None else Some(DispatchCreate(originalUrl))
  }

  /** Saving an edit starts an update only when the edited URL is non-empty. */
  function HandleUpdate(shortCode: string, editUrl: string): (d: Option<Dispatch>)
    ensures d == None <==> editUrl == ""
    ensures d != None ==> d == Some(DispatchUpdate(shortCode, editUrl))
  {
    if editUrl == "" then None else Some(DispatchUpdate(shortCode, editUrl))
  }

  /** A create the dashboard sends always passes the server's required check on `url`. */
  lemma DispatchedCreatePassesRequired(input: string, code: string, createdAt: nat, updatedAt: nat)
    requires HandleCreate(input).Some? && |code| == UrlModel.CodeLength
    ensures UrlModel.MeetsRequired(UrlController.CreateDraft(Some(input), code, createdAt, updatedAt))
  {
  }
}
