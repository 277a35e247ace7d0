/**
 * create_urls and its inverse in final_file: filling the `{}` of the detail
 * URL template with each company id, and recovering the id from a detail URL
 * by splitting on "business/" and "/false".
 */
module Urls {
  import opened Wrappers
  import opened Strings
  import opened Decimal

  const SLOT := "{}"
  const BUSINESS := "business/"
  const FALSE_SUFFIX := "/false"
  const SCHEME := "https://"
  const HOST := "firststop.sos.nd.gov"
  const DETAIL_PATH := "/api/FilingDetail/"
  const DETAIL_HOST := SCHEME + HOST + DETAIL_PATH
  /** The `base_url` of owner_spider.start_requests. */
  const DETAIL_TEMPLATE := DETAIL_HOST + BUSINESS + SLOT + FALSE_SUFFIX

  /** The two exceptions final_file raises while turning a URL into an id. */
  datatype IdError =
    | NoBusinessSegment   // IndexError: the URL has no "business/"
    | NotAnInteger        // ValueError: astype(int) on text that is not an integer

  predicate NoBraces(s: string) {
    '{' !in s && '}' !in s
  }

  /** A template whose only replacement field is a single `{}`. */
  predicate SingleSlot(t: string) {
    var parts := Split(t, SLOT);
    |parts| == 2 && NoBraces(parts[0]) && NoBraces(parts[1])
  }

  /** `t.format(arg)` for a single-slot template. */
  function Format(t: string, arg: string): (r: string)
    requires SingleSlot(t)
    ensures |r| + |SLOT| == |t| + |arg|
  {
    var parts := Split(t, SLOT);
    SplitJoin(t, SLOT);
    assert parts[1..] == [parts[1]];
    parts[0] + arg + parts[1]
  }

  /** Formatting `p + "{}" + q` puts the argument between `p` and `q`. */
  lemma FormatSpec(p: string, q: string, arg: string)
    requires NoBraces(p) && NoBraces(q)
    ensures SingleSlot(p + SLOT + q)
    ensures Format(p + SLOT + q, arg) == p + arg + q
  {
    SplitAfterFree(p, SLOT, q);
    MissingFirstChar(q, SLOT);
  }

  /** `create_urls(df, t)`: the template filled with each id's decimal text. */
  function CreateUrls(t: string, ids: seq<nat>): seq<string>
    requires SingleSlot(t)
  {
    seq(|ids|, i requires 0 <= i < |ids| => Format(t, NatToString(ids[i])))
  }

  /** One URL per id, in order, each the template with `{}` replaced by the id. */
  lemma CreateUrlsSpec(p: string, q: string, ids: seq<nat>)
    requires NoBraces(p) && NoBraces(q)
    ensures SingleSlot(p + SLOT + q)
    ensures |CreateUrls(p + SLOT + q, ids)| == |ids|
    ensures forall i :: 0 <= i < |ids| ==> CreateUrls(p + SLOT + q, ids)[i] == p + NatToString(ids[i]) + q
  {
    FormatSpec(p, q, []);
    forall arg: string ensures Format(p + SLOT + q, arg) == p + arg + q {
      FormatSpec(p, q, arg);
    }
  }

  /** `url.split('business/')[1].split('/false')[0]`; None where Python raises IndexError. */
  function IdText(url: string): (r: Option<string>)
    ensures r.Some? <==> Contains(url, BUSINESS)
    ensures r.Some? ==> !Contains(r.value, FALSE_SUFFIX)
  {
    SecondPiece(url, BUSINESS);
    match Piece(url, BUSINESS, 1)
    case None => None
    case Some(tail) => BeforeSpec(tail, FALSE_SUFFIX); Some(Before(tail, FALSE_SUFFIX))
  }

  /** The id final_file recovers from one detail URL. */
  function IdFromUrl(url: string): (r: Result<nat, IdError>)
    ensures r == Err(NoBusinessSegment) <==> !Contains(url, BUSINESS)
  {
    match IdText(url)
    case None => Err(NoBusinessSegment)
    case Some(text) =>
      match ParseNat(text)
      case None => Err(NotAnInteger)
      case Some(id) => Ok(id)
  }

  /** The detail URL's fixed text has no brace, and no "b" before "business/". */
  lemma DetailTemplateChars()
    ensures NoBraces(DETAIL_HOST + BUSINESS) && NoBraces(FALSE_SUFFIX)
    ensures 'b' !in DETAIL_HOST && 'b' !in FALSE_SUFFIX
  {
    assert forall k :: 0 <= k < |SCHEME| ==> SCHEME[k] != '{' && SCHEME[k] != '}' && SCHEME[k] != 'b';
    assert forall k :: 0 <= k < |HOST| ==> HOST[k] != '{' && HOST[k] != '}' && HOST[k] != 'b';
    assert forall k :: 0 <= k < |DETAIL_PATH| ==> DETAIL_PATH[k] != '{' && DETAIL_PATH[k] != '}' && DETAIL_PATH[k] != 'b';
    assert forall k :: 0 <= k < |BUSINESS| ==> BUSINESS[k] != '{' && BUSINESS[k] != '}';
    assert forall k :: 0 <= k < |FALSE_SUFFIX| ==> FALSE_SUFFIX[k] != '{' && FALSE_SUFFIX[k] != '}' && FALSE_SUFFIX[k] != 'b';
  }

  /** The id text of a detail URL is the decimal text between "business/" and "/false". */
  lemma IdTextOfDetailUrl(digits: string)
    requires AllDigits(digits)
    ensures IdText(DETAIL_HOST + BUSINESS + (digits + FALSE_SUFFIX)) == Some(digits)
  {
    var tail := digits + FALSE_SUFFIX;
    DetailTemplateChars();
    assert 'b' !in tail;
    MissingFirstChar(tail, BUSINESS);
    SecondPieceAfterFree(DETAIL_HOST, BUSINESS, tail);
    assert '/' !in digits;
    BeforeAfterFree(digits, FALSE_SUFFIX, []);
    assert tail == digits + FALSE_SUFFIX + [];
  }

  /** Formatting the detail template puts the id text between "business/" and "/false". */
  lemma DetailFormat(digits: string)
    ensures SingleSlot(DETAIL_TEMPLATE)
    ensures Format(DETAIL_TEMPLATE, digits) == DETAIL_HOST + BUSINESS + (digits + FALSE_SUFFIX)
  {
    var prefix := DETAIL_HOST + BUSINESS;
    assert DETAIL_TEMPLATE == prefix + SLOT + FALSE_SUFFIX;
    DetailTemplateChars();
    FormatSpec(prefix, FALSE_SUFFIX, digits);
    assert prefix + digits + FALSE_SUFFIX == prefix + (digits + FALSE_SUFFIX);
  }

  /** The id recovery undoes the templating: the URL create_urls builds for an id gives that id back. */
  lemma UrlRoundTrip(id: nat)
    ensures SingleSlot(DETAIL_TEMPLATE)
    ensures IdFromUrl(Format(DETAIL_TEMPLATE, NatToString(id))) == Ok(id)
  {
    var digits := NatToString(id);
    DetailFormat(digits);
    IdTextOfDetailUrl(digits);
    ParseShow(id);
  }

  /** Every URL built from the detail template gives back its id, in order. */
  lemma CreateUrlsRoundTrip(ids: seq<nat>)
    ensures SingleSlot(DETAIL_TEMPLATE)
    ensures |CreateUrls(DETAIL_TEMPLATE, ids)| == |ids|
    ensures forall i :: 0 <= i < |ids| ==> IdFromUrl(CreateUrls(DETAIL_TEMPLATE, ids)[i]) == Ok(ids[i])
  {
    UrlRoundTrip(0);
    forall i | 0 <= i < |ids| ensures IdFromUrl(CreateUrls(DETAIL_TEMPLATE, ids)[i]) == Ok(ids[i]) {
      UrlRoundTrip(ids[i]);
    }
  }
}
