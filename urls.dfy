/** Turning the uploaded question ids into page addresses
    (`generate_urls_from_ids`). */
module Urls {
  import opened Sequences
  import opened Text

  const BaseUrl: string := "https://medu4.com/"

  /** The comprehension's filter `if qid.strip()`: an id passes exactly when
      it holds a character other than whitespace. */
  predicate IsNonBlank(id: string): (r: bool)
    ensures r <==> !AllSpace(id)
  {
    StripEmptyIff(id);
    Strip(id) != []
  }

  /** The comprehension's element `f"{base_url}{qid.strip()}"`: the base,
      then, for a non-blank id, a non-empty id with no surrounding whitespace. */
  function PageUrl(id: string): (u: string)
    ensures |u| >= |BaseUrl| && u[..|BaseUrl|] == BaseUrl
    ensures IsNonBlank(id) ==> |u| > |BaseUrl| && !IsSpace(u[|BaseUrl|]) && !IsSpace(u[|u| - 1])
  {
    var stripped := Strip(id);
    var u := BaseUrl + stripped;
    assert u[..|BaseUrl|] == BaseUrl;
    assert stripped != [] ==> u[|BaseUrl|] == stripped[0] && u[|u| - 1] == stripped[|stripped| - 1];
    u
  }

  /** `[f"{base_url}{qid.strip()}" for qid in question_ids if qid.strip()]`. */
  function GenerateUrls(ids: seq<string>): (urls: seq<string>)
    ensures |urls| <= |ids|
  {
    FilterMap(ids, IsNonBlank, PageUrl)
  }

  /** Every address is the base followed by a stripped, non-empty id; the ids
      it comes from appear in input order; and every non-blank id gives one
      (duplicates included, since positions, not values, are matched). */
  lemma GenerateUrlsOrigins(ids: seq<string>) returns (origin: seq<nat>)
    ensures var urls := GenerateUrls(ids);
      && |origin| == |urls|
      && (forall k :: 0 <= k < |origin| ==>
            && origin[k] < |ids|
            && Strip(ids[origin[k]]) != []
            && urls[k] == BaseUrl + Strip(ids[origin[k]]))
      && (forall k, l :: 0 <= k < l < |origin| ==> origin[k] < origin[l])
      && (forall j :: 0 <= j < |ids| && Strip(ids[j]) != [] ==> j in origin)
  {
    origin := FilterMapOrigins(ids, IsNonBlank, PageUrl);
  }

  /** Each address starts with the base, and the id after it has no
      surrounding spaces and is not empty. */
  lemma GeneratedUrlShape(ids: seq<string>, k: nat)
    requires k < |GenerateUrls(ids)|
    ensures var u := GenerateUrls(ids)[k];
      && |u| > |BaseUrl|
      && u[..|BaseUrl|] == BaseUrl
      && !IsSpace(u[|BaseUrl|]) && !IsSpace(u[|u| - 1])
  {
    var origin := GenerateUrlsOrigins(ids);
    assert IsNonBlank(ids[origin[k]]) && GenerateUrls(ids)[k] == PageUrl(ids[origin[k]]);
  }

  /** An id made only of spaces is dropped wherever it stands. */
  lemma BlankIdDropped(before: seq<string>, id: string, after: seq<string>)
    requires AllSpace(id)
    ensures GenerateUrls(before + [id] + after) == GenerateUrls(before + after)
  {
    StripEmptyIff(id);
    FilterMapSkip(before, id, after, IsNonBlank, PageUrl);
  }

  /** Addresses of consecutive batches of ids are the batches' addresses in turn. */
  lemma GenerateUrlsAppend(xs: seq<string>, ys: seq<string>)
    ensures GenerateUrls(xs + ys) == GenerateUrls(xs) + GenerateUrls(ys)
  {
    FilterMapAppend(xs, ys, IsNonBlank, PageUrl);
  }

  /** A list of blank lines, such as an empty upload, yields no address. */
  lemma AllBlankGivesNoUrls(ids: seq<string>)
    requires forall j :: 0 <= j < |ids| ==> AllSpace(ids[j])
    ensures GenerateUrls(ids) == []
  {
    forall j | 0 <= j < |ids| ensures !IsNonBlank(ids[j]) {
      StripEmptyIff(ids[j]);
    }
    FilterMapNoneKept(ids, IsNonBlank, PageUrl);
  }
}
