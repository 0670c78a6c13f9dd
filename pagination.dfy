/**
 * The sweep over the recordings listing (`listOutdatedVoicemails` and
 * `processOutdatedVoicemails`): fetch and process the first page, then
 * follow `next_page_uri` links while the page's `end` index is below the
 * record limit.
 *
 * The listing is a finite chain of pages: `listing[0]` is what the first
 * URL returns, and the cursor of `listing[k]` leads to `listing[k + 1]`.
 * Following the cursor of the last page in the chain is a failed fetch,
 * which ends the sweep with an error.
 */
module Pagination {

  import opened Wrappers
  import opened Decimal
  import opened UtcFormat
  import opened Archive

  const TwilioRootUrl: string := "https://api.twilio.com"
  const RecordingsPrefix: string := "/Recordings.json?PageSize="
  const DateFilter: string := "&DateCreated<="

  /** One page of the listing: its records, the index of its last record, the next-page cursor. */
  datatype Page = Page(recordings: seq<Voicemail>, end: int, nextPageUri: Option<string>)

  /**
   * The first-page URL, relative to the account's base URL: the page size
   * and the date filter. Only this URL carries the filter.
   */
  function FirstPageUrl(pageSize: int, cutoff: UtcDate): (url: string)
    ensures |url| > |RecordingsPrefix| + |DateFilter|
    ensures url[..|RecordingsPrefix|] == RecordingsPrefix
  {
    UrlPrefix(IntText(pageSize), DateText(cutoff));
    RecordingsPrefix + IntText(pageSize) + DateFilter + DateText(cutoff)
  }

  /** A first-page URL starts with the recordings path, whatever its size and date parts. */
  lemma UrlPrefix(size: string, date: string)
    ensures var url := RecordingsPrefix + size + DateFilter + date;
      |url| >= |RecordingsPrefix| + |DateFilter| && url[..|RecordingsPrefix|] == RecordingsPrefix
  {
    Split(RecordingsPrefix + size + DateFilter, date, 0, |RecordingsPrefix|);
    Split(RecordingsPrefix + size, DateFilter, 0, |RecordingsPrefix|);
    Split(RecordingsPrefix, size, 0, |RecordingsPrefix|);
  }

  /** The first-page URL reads back to the page size and cutoff day it was built from. */
  lemma FirstPageUrlRoundTrip(pageSize: int, cutoff: UtcDate)
    requires DateFits(cutoff)
    ensures var url := FirstPageUrl(pageSize, cutoff);
      |url| >= |RecordingsPrefix| + |DateFilter| + 10
      && url[..|RecordingsPrefix|] == RecordingsPrefix
      && ParseInt(url[|RecordingsPrefix|..|url| - 24]) == Some(pageSize)
      && url[|url| - 24..|url| - 10] == DateFilter
      && DecodeDate(url[|url| - 10..]) == Some(cutoff)
  {
    DateTextRoundTrip(cutoff);
    IntTextRoundTrip(pageSize);
    UrlReadsBack(FirstPageUrl(pageSize, cutoff), IntText(pageSize), DateText(cutoff), pageSize, cutoff);
  }

  /** A first-page URL whose size and date parts read back reads back as a whole. */
  lemma UrlReadsBack(url: string, size: string, date: string, pageSize: int, cutoff: UtcDate)
    requires url == RecordingsPrefix + size + DateFilter + date
    requires |date| == 10 && ParseInt(size) == Some(pageSize) && DecodeDate(date) == Some(cutoff)
    ensures |url| >= |RecordingsPrefix| + |DateFilter| + 10
    ensures url[..|RecordingsPrefix|] == RecordingsPrefix
    ensures ParseInt(url[|RecordingsPrefix|..|url| - 24]) == Some(pageSize)
    ensures url[|url| - 24..|url| - 10] == DateFilter
    ensures DecodeDate(url[|url| - 10..]) == Some(cutoff)
  {
    UrlParts(RecordingsPrefix, size, DateFilter, date);
  }

  /** Where the four parts of a first-page URL sit in it. */
  lemma UrlParts(prefix: string, size: string, filter: string, date: string)
    requires |filter| == 14 && |date| == 10
    ensures var url := prefix + size + filter + date;
      |url| == |prefix| + |size| + 24
      && url[..|prefix|] == prefix
      && url[|prefix|..|url| - 24] == size
      && url[|url| - 24..|url| - 10] == filter
      && url[|url| - 10..] == date
  {
    var withSize := prefix + size;
    var withFilter := withSize + filter;
    Split(withFilter, date, 0, |prefix|);
    Split(withFilter, date, |prefix|, |withSize|);
    Split(withFilter, date, |withSize|, |withFilter|);
    Split(withSize, filter, 0, |prefix|);
    Split(withSize, filter, |prefix|, |withSize|);
    Split(prefix, size, 0, |prefix|);
  }

  /** Slices of a concatenation that stay within its first part, and its second part. */
  lemma Split(a: string, b: string, i: nat, j: nat)
    requires i <= j <= |a|
    ensures (a + b)[i..j] == a[i..j]
    ensures (a + b)[|a|..] == b
  {
  }

  /** The cursor is truthy: present and not the empty string. */
  predicate HasCursor(page: Page) {
    page.nextPageUri.Some? && page.nextPageUri.value != ""
  }

  /** Later pages are fetched by their opaque cursor, made absolute. */
  function NextPageUrl(page: Page): (url: string)
    requires HasCursor(page)
    ensures |url| > |TwilioRootUrl|
    ensures url[..|TwilioRootUrl|] == TwilioRootUrl && url[|TwilioRootUrl|..] == page.nextPageUri.value
  {
    Split(TwilioRootUrl, page.nextPageUri.value, 0, |TwilioRootUrl|);
    TwilioRootUrl + page.nextPageUri.value
  }

  /** The loop test: the page has a cursor and its `end` is below the record limit. */
  predicate Continues(page: Page, recordLimit: int): (c: bool)
    ensures c <==> page.nextPageUri !in {None, Some("")} && page.end < recordLimit
  {
    HasCursor(page) && page.end < recordLimit
  }

  /** The count logged after the first page. */
  function FirstPageCount(end: int): (n: int)
    ensures end >= 1 ==> n == LaterPageCount(end)
    ensures end == 0 ==> n == 0
    ensures end < 0 ==> n == end
  {
    if end <= 0 then end else end + 1
  }

  /** The count logged after every later page. */
  function LaterPageCount(end: int): (n: int)
    ensures n - 1 == end
  {
    end + 1
  }

  /**
   * Reference definition of how far a sweep gets: the number of pages it
   * processes when it is at page `k`.
   */
  function SweptFrom(listing: seq<Page>, recordLimit: int, k: nat): (n: nat)
    requires k < |listing|
    ensures k < n <= |listing|
    decreases |listing| - k
  {
    if Continues(listing[k], recordLimit) && k + 1 < |listing| then SweptFrom(listing, recordLimit, k + 1)
    else k + 1
  }

  function PagesSwept(listing: seq<Page>, recordLimit: int): (n: nat)
    ensures n <= |listing|
    ensures listing != [] ==> n >= 1
  {
    if listing == [] then 0 else SweptFrom(listing, recordLimit, 0)
  }

  /**
   * From page `k` on, the sweep stops at the first page that does not
   * continue, or at the end of the chain.
   */
  lemma {:induction false} SweptFromStopsAtFirstHalt(listing: seq<Page>, recordLimit: int, k: nat)
    requires k < |listing|
    ensures var n := SweptFrom(listing, recordLimit, k);
      k < n <= |listing|
      && (forall i :: k <= i < n - 1 ==> Continues(listing[i], recordLimit))
      && (n == |listing| || !Continues(listing[n - 1], recordLimit))
    decreases |listing| - k
  {
    if Continues(listing[k], recordLimit) && k + 1 < |listing| {
      SweptFromStopsAtFirstHalt(listing, recordLimit, k + 1);
    }
  }

  /**
   * The exit condition of the whole sweep: the first page is always
   * processed; every page but the last one processed had a cursor and an
   * `end` below the limit; the last one processed either lacks a cursor,
   * has reached the limit, or is the end of the chain.
   */
  lemma SweepExit(listing: seq<Page>, recordLimit: int)
    requires listing != []
    ensures var n := PagesSwept(listing, recordLimit);
      1 <= n <= |listing|
      && (forall i :: 0 <= i < n - 1 ==> Continues(listing[i], recordLimit))
      && (n == |listing| || !Continues(listing[n - 1], recordLimit))
  {
    SweptFromStopsAtFirstHalt(listing, recordLimit, 0);
  }

  /** A first page without a cursor, or already at the limit, is the only page processed. */
  lemma FirstPageHalts(listing: seq<Page>, recordLimit: int)
    requires listing != [] && !Continues(listing[0], recordLimit)
    ensures PagesSwept(listing, recordLimit) == 1
  {
  }

  /** A higher record limit never makes the sweep stop earlier. */
  lemma {:induction false} RaisingLimitSweepsMore(listing: seq<Page>, low: int, high: int, k: nat)
    requires low <= high && k < |listing|
    ensures SweptFrom(listing, low, k) <= SweptFrom(listing, high, k)
    decreases |listing| - k
  {
    if Continues(listing[k], low) && k + 1 < |listing| {
      RaisingLimitSweepsMore(listing, low, high, k + 1);
      SweptFromStopsAtFirstHalt(listing, high, k + 1);
    } else {
      SweptFromStopsAtFirstHalt(listing, high, k);
    }
  }

  /**
   * Pages after the one where the sweep halts are never reached: appending
   * more pages to the chain changes nothing.
   */
  lemma {:induction false} UnreachedPagesIgnored(listing: seq<Page>, more: seq<Page>, recordLimit: int, k: nat)
    requires k < |listing|
    requires !Continues(listing[SweptFrom(listing, recordLimit, k) - 1], recordLimit)
    ensures SweptFrom(listing + more, recordLimit, k) == SweptFrom(listing, recordLimit, k)
    decreases |listing| - k
  {
    SweptFromStopsAtFirstHalt(listing, recordLimit, k);
    assert (listing + more)[k] == listing[k];
    if Continues(listing[k], recordLimit) && k + 1 < |listing| {
      UnreachedPagesIgnored(listing, more, recordLimit, k + 1);
    }
  }

  /**
   * `processOutdatedVoicemails`: returns the URLs it fetched, the record
   * batches it handed to page processing, the counts it logged, and whether
   * it finished without a failed fetch.
   */
  method ProcessOutdatedVoicemails(listing: seq<Page>, firstUrl: string, recordLimit: int)
    returns (fetched: seq<string>, processed: seq<seq<Voicemail>>, reported: seq<int>, completed: bool)
    ensures |processed| == PagesSwept(listing, recordLimit) && |processed| <= |listing|
    ensures listing != [] ==> |processed| >= 1
    ensures forall i :: 0 <= i < |processed| ==> processed[i] == listing[i].recordings
    ensures forall i :: 0 <= i < |processed| - 1 ==> Continues(listing[i], recordLimit)
    ensures completed <==> listing != [] && !Continues(listing[|processed| - 1], recordLimit)
    ensures !completed ==> |processed| == |listing|
    ensures |fetched| == |processed| + (if completed then 0 else 1)
    ensures fetched[0] == firstUrl
    ensures forall i :: 1 <= i < |fetched| ==>
              i - 1 < |listing| && HasCursor(listing[i - 1]) && fetched[i] == NextPageUrl(listing[i - 1])
    ensures |reported| == |processed|
    ensures reported != [] ==> reported[0] == FirstPageCount(listing[0].end)
    ensures forall i :: 1 <= i < |reported| ==> reported[i] == LaterPageCount(listing[i].end)
  {
    fetched := [firstUrl];
    if listing == [] {
      processed, reported, completed := [], [], false;
      return;
    }
    var k := 0;
    var res := listing[0];
    processed := [res.recordings];
    reported := [FirstPageCount(res.end)];
    while Continues(res, recordLimit)
      invariant 0 <= k < |listing| && res == listing[k]
      invariant |processed| == |reported| == |fetched| == k + 1
      invariant PagesSwept(listing, recordLimit) == SweptFrom(listing, recordLimit, k)
      invariant forall i :: 0 <= i <= k ==> processed[i] == listing[i].recordings
      invariant forall i :: 0 <= i < k ==> Continues(listing[i], recordLimit)
      invariant fetched[0] == firstUrl
      invariant forall i :: 1 <= i <= k ==> HasCursor(listing[i - 1]) && fetched[i] == NextPageUrl(listing[i - 1])
      invariant reported[0] == FirstPageCount(listing[0].end)
      invariant forall i :: 1 <= i <= k ==> reported[i] == LaterPageCount(listing[i].end)
      decreases |listing| - k
    {
      fetched := fetched + [NextPageUrl(res)];
      if k + 1 == |listing| {
        completed := false;
        return;
      }
      k := k + 1;
      res := listing[k];
      processed := processed + [res.recordings];
      reported := reported + [LaterPageCount(res.end)];
    }
    completed := true;
  }

  /** Number of records in a run of pages. */
  function Seen(pages: seq<Page>): nat {
    if pages == [] then 0 else Seen(pages[..|pages| - 1]) + |pages[|pages| - 1].recordings|
  }

  /**
   * The listing's own indexing: `end` is the zero-based position, in the
   * whole listing, of the page's last record.
   */
  predicate EndIndexes(listing: seq<Page>) {
    forall i :: 0 <= i < |listing| ==> listing[i].end == Seen(listing[..i + 1]) - 1
  }

  /**
   * Under that indexing the loop test reads "no more than the record limit
   * seen so far": every page but the last is fetched while at most the
   * limit has been seen, and a sweep that halts with a cursor left has seen
   * more than the limit.
   */
  lemma RecordLimitInRecords(listing: seq<Page>, recordLimit: int)
    requires listing != [] && EndIndexes(listing)
    ensures var n := PagesSwept(listing, recordLimit);
      (forall i :: 0 < i < n ==> Seen(listing[..i]) <= recordLimit)
      && (HasCursor(listing[n - 1]) && n < |listing| ==> Seen(listing[..n]) > recordLimit)
  {
    SweepExit(listing, recordLimit);
  }

  /**
   * Under that indexing each later page logs the running total of records,
   * and the first page logs its own size when it holds at least two
   * records; a first page of exactly one record logs 0.
   */
  lemma LoggedCounts(listing: seq<Page>)
    requires listing != [] && EndIndexes(listing)
    ensures |listing[0].recordings| >= 2 ==> FirstPageCount(listing[0].end) == |listing[0].recordings|
    ensures |listing[0].recordings| == 1 ==> FirstPageCount(listing[0].end) == 0
    ensures forall i :: 1 <= i < |listing| ==> LaterPageCount(listing[i].end) == Seen(listing[..i + 1])
  {
    assert listing[..1][..0] == [];
    assert Seen(listing[..1]) == |listing[0].recordings|;
  }
}
