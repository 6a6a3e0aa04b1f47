/**
 * The record shape of a stored short URL: its fields, which of them are
 * required, and the defaults a new document takes for fields it was not
 * given. The auto-increment counter for `urlId` lives in the store
 * (module UrlController), which is where the plugin keeps it.
 */
module UrlModel {
  import opened Wrappers

  /** Length of the codes the controller asks the generator for. */
  const CodeLength: nat := 8

  /** The first value the auto-increment counter hands out for `urlId`. */
  const FirstUrlId: nat := 1

  /** A stored document. Times are readings of an abstract clock. */
  datatype UrlRecord = UrlRecord(
    urlId: nat,
    url: string,
    shortCode: string,
    createdAt: nat,
    updatedAt: nat,
    accessCount: nat)

  /** The fields a new document is constructed with, before defaults apply. */
  datatype Draft = Draft(
    url: Option<string>,
    shortCode: Option<string>,
    createdAt: Option<nat>,
    updatedAt: Option<nat>,
    accessCount: Option<nat>)

  /** A `required` string path passes validation only when given and non-empty. */
  predicate Present(s: Option<string>)
  {
    s.Some? && s.value != ""
  }

  /** Both `url` and `shortCode` are required. */
  predicate MeetsRequired(d: Draft)
  {
    Present(d.url) && Present(d.shortCode)
  }

  /**
   * The required check that saving runs on a whole document, whether or not
   * the required fields were modified since it was loaded.
   */
  predicate PassesRequired(r: UrlRecord)
  {
    r.url != "" && r.shortCode != ""
  }

  /**
   * The document a valid draft becomes when it is built at time `builtAt`
   * and saved with counter value `id`: given fields are kept, missing
   * timestamps default to `builtAt` (defaults apply when the document is
   * built, not when it is saved) and a missing access count defaults to 0.
   */
  function Document(d: Draft, id: nat, builtAt: nat): (r: UrlRecord)
    requires MeetsRequired(d)
    ensures r.urlId == id && r.url == d.url.value && r.shortCode == d.shortCode.value
    ensures PassesRequired(r)
    ensures d.createdAt.None? ==> r.createdAt == builtAt
    ensures d.createdAt.Some? ==> r.createdAt == d.createdAt.value
    ensures d.updatedAt.None? ==> r.updatedAt == builtAt
    ensures d.updatedAt.Some? ==> r.updatedAt == d.updatedAt.value
    ensures d.accessCount.None? ==> r.accessCount == 0
    ensures d.accessCount.Some? ==> r.accessCount == d.accessCount.value
  {
    UrlRecord(id, d.url.value, d.shortCode.value,
              d.createdAt.GetOr(builtAt), d.updatedAt.GetOr(builtAt), d.accessCount.GetOr(0))
  }
}
