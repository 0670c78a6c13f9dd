# Voicemail archiver — a Dafny model

This project models the logic core of `lib/voicemail-eraser.js`, a Lambda
handler that sweeps a Twilio account's recordings listing and archives to
an S3 bucket the completed recordings created on or before a cutoff day
(2020-09-01 minus the retention period), page by page up to a record
limit.
One invocation:

1. settles its settings: each one is `config.X || process.env.X || <current
   module value>` (JavaScript's first-truthy fallback), and the retention
   period is raised to at least 7 days (`Settings`, `VoicemailEraser.ModuleState.Configure`);
2. fetches the first listing page by a URL that carries the page size and
   the date filter `DateCreated<=YYYY-MM-DD`, and processes it;
3. follows `next_page_uri` cursors page by page while the page has a
   truthy cursor (present and non-empty) and its `end` index is below `invocationRecordLimit`, logging a
   count after each page (`Pagination`);
4. for each record, archives it only when its status is exactly
   `"completed"`: fetch the audio, fetch the call to learn the caller
   number, upload under the key
   `{YYYY}/{M}/{D}/{from}_{YYYYMMDD}T{HH}:{mm}:{ss}_UTC.mp3`, the year
   zero-filled to four digits, month and day unpadded (`Archive`).
   No record is deleted: the delete call is commented out.

The code has no failure budget, no pre/post hooks and no delete step (the
delete call at line 100 is commented out), and its concurrency cap is fixed
at module load; the model follows the code.

Files, one module each: `wrappers.dfy` (Option), `decimal.dfy` (decimal
text and zero fill, with readers), `utc_format.dfy` (the two moment
formats, with decoders), `settings.dfy`, `archive.dfy`, `pagination.dfy`,
`eraser.dfy` (the module-level state as a class, and the entry point).

The listing is modelled as a finite chain of pages: `listing[0]` answers
the first URL and the cursor of page `k` leads to page `k + 1`; following
the cursor of the last page of the chain is a failed fetch, which in the
source rejects the whole invocation.

## Model

| member | source | states |
|---|---|---|
| Decimal.Dec | lib/voicemail-eraser.js:117 | the unpadded 'M'/'D' text: all digits, reads back to the number, no leading zero |
| Decimal.ZeroFill | lib/voicemail-eraser.js:117 | the zero-filled 'YYYY'/'MM'/'HH' text: reads back to the number, exactly max(width, digits) long, never truncated |
| Decimal.IntTextRoundTrip | lib/voicemail-eraser.js:78 | the page size as rendered into the URL reads back to the same integer, negative ones included |
| UtcFormat.DateTextRoundTrip | lib/voicemail-eraser.js:78 | the 'YYYY-MM-DD' filter date is ten characters and decodes to the same day |
| UtcFormat.StampRoundTrip | lib/voicemail-eraser.js:117 | the 'YYYYMMDDTHH:mm:ss' timestamp is seventeen characters and decodes to the same instant |
| Settings.Or | lib/voicemail-eraser.js:45 | JavaScript's logical or of two entries is truthy iff one operand is, is one of its operands, is the first whenever that is truthy and the second whenever the first is falsy |
| Settings.Resolve | lib/voicemail-eraser.js:45-50 | config wins when truthy, else the environment when truthy, else the current module value |
| Settings.FalsyFallsThrough | lib/voicemail-eraser.js:45-50 | a 0 (or "") in a source behaves exactly like an absent entry |
| Settings.ResolvedFalsyOnlyFromCurrent | lib/voicemail-eraser.js:45-50 | a setting resolves to 0 only if the current module value is 0 |
| Settings.ClampRetention | lib/voicemail-eraser.js:46 | the effective retention is at least 7, equals the input when that is at least 7, and is otherwise 7 |
| Settings.EffectiveRetention | lib/voicemail-eraser.js:45-46 | the retention an invocation uses is at least 7 and is the parameter-store value whenever that is at least 7 |
| Settings.RetentionSettles | lib/voicemail-eraser.js:45-46 | re-running with the same sources on the value an invocation left behind yields that value again |
| Archive.ArchiveVoicemail | lib/voicemail-eraser.js:93-123 | a record issues requests iff its status is exactly "completed"; then exactly three: the audio fetch, the call fetch, and one upload into the bucket under the key built from its creation instant and caller number; never a delete |
| Archive.StorageKey | lib/voicemail-eraser.js:117 | the key is the directory, then the caller number, then the timestamp tail, each recoverable by position |
| Archive.BackupRequests | lib/voicemail-eraser.js:111-123 | a backup fetches the audio, then the call, then uploads once into the given bucket under the given key; it never deletes |
| Archive.StorageKeyRoundTrip | lib/voicemail-eraser.js:116-117 | the key decodes back to the instant and caller number it was built from, its directory (four-digit zero-filled year, unpadded month and day) agreeing with its padded timestamp |
| Archive.PageRequests | lib/voicemail-eraser.js:105-109 | the requests of one page, record by record: none is a delete, and every upload goes into the given bucket |
| Archive.PageArchivesCompletedOnly | lib/voicemail-eraser.js:105-109 | the keys a page uploads are, as a multiset, exactly the keys of its completed records; every completed record's upload is issued; all uploads go into the configured bucket; no delete |
| Archive.SweepArchivesCompletedOnly | lib/voicemail-eraser.js:82-122 | across all processed pages: the uploaded keys are, as a multiset, exactly the keys of the completed records; every completed record's upload is issued; every upload goes into the configured bucket; no delete |
| Pagination.FirstPageUrl | lib/voicemail-eraser.js:78 | the first-page URL starts with the recordings path and is longer than the path and the date filter together |
| Pagination.NextPageUrl | lib/voicemail-eraser.js:87 | a later page's URL is the API root followed by the page cursor, which can be read back from it |
| Pagination.FirstPageUrlRoundTrip | lib/voicemail-eraser.js:77-79 | the first-page URL starts with the recordings path and reads back to its page size and its cutoff day |
| Pagination.SweptFrom | lib/voicemail-eraser.js:86-88 | from page k the sweep processes at least page k and never runs past the chain |
| Pagination.PagesSwept | lib/voicemail-eraser.js:82-91 | a non-empty listing has at least one page processed, and no more pages than it holds |
| Pagination.SweptFromStopsAtFirstHalt | lib/voicemail-eraser.js:86-88 | from page k the sweep stops at the first page that lacks a cursor or has reached the limit, or at the end of the chain |
| Pagination.SweepExit | lib/voicemail-eraser.js:82-91 | the first page is always processed; `Continues`, the loop test of line 86 (a cursor neither absent nor empty, and `end` below the record limit), holds of every earlier page and fails on the last unless the chain ended there |
| Pagination.FirstPageHalts | lib/voicemail-eraser.js:83-86 | a first page without a cursor (absent or empty), or with `end` at or above the limit, is the only page processed |
| Pagination.RaisingLimitSweepsMore | lib/voicemail-eraser.js:86 | a higher record limit never processes fewer pages |
| Pagination.UnreachedPagesIgnored | lib/voicemail-eraser.js:86-88 | pages after the halting page are never reached: extending the chain changes nothing |
| Pagination.ProcessOutdatedVoicemails | lib/voicemail-eraser.js:82-91 | processes pages in chain order, each exactly once, first page always; fetches the filtered URL first and cursors after; exits exactly when the last page lacks a cursor or reached the limit, or a fetch failed; logs the per-page counts |
| Pagination.RecordLimitInRecords | lib/voicemail-eraser.js:86 | with `end` as the listing index of a page's last record, pages are fetched while at most the limit has been seen, and a halt with a cursor left has seen more than the limit |
| Pagination.LoggedCounts | lib/voicemail-eraser.js:85-89 | with that indexing, `LaterPageCount` (line 89) logs the running total of records seen after every later page, and `FirstPageCount` (line 85) logs the first page's size from two records up, and 0 for a single record |
| VoicemailEraser.ModuleState.constructor | lib/voicemail-eraser.js:9-14 | the module starts with retention 30, page size 100, concurrency 20, record limit 1000, bucket "voicemail-archives" |
| VoicemailEraser.ModuleState.Configure | lib/voicemail-eraser.js:45-50 | every setting is overwritten by its fallback chain over the previous value, retention clamped to at least 7 |
| VoicemailEraser.ModuleState.ArchiveVoicemails | lib/voicemail-eraser.js:34-54 | configures (all five settings, the concurrency setting included), sweeps from the first-page URL built from the new page size and the cutoff for the new retention, limited by the new record limit, fetching after it exactly the cursor URL of each page that continued and reporting the last URL fetched when a fetch fails; uploads, as a multiset, exactly the keys of the completed records of the processed pages, all into the newly resolved bucket, deleting nothing; answers 200 unless a listing fetch failed |

## Left out

- The concurrency throttle `invokeFunction` (lines 58-70): it bounds in-flight promises with `Promise.race`, which has no counterpart here. It is built at module load with the default limit 20 (line 103), so the `invocationAsyncLimit` that `Configure` resolves (line 48) never reaches it.
- The `Promise.all` fan-out over a page (lines 105-109) and its error behaviour: one rejected record action rejects the page and ends the invocation. The sweep treats page processing as one opaque step; `Archive.ArchiveVoicemail` assumes each remote call succeeds.
- Archive.PageArchivesCompletedOnly: the records of a page run concurrently, so the request sequence is one possible schedule; only order-free facts are claimed (the multiset of uploaded keys, which uploads occur, their bucket, the absence of deletes).
- VoicemailEraser.ModuleState.ArchiveVoicemails: the archive requests are returned after the listing fetches, not interleaved with them as in the source (each page's records finish before the next page is fetched).
- HTTP and cloud calls: the parameter-store read (lines 35-36), the API client (lines 37-44, 72-75), the audio and call fetches (lines 112-115), the S3 upload (line 123) and the proxy and AWS setup in `Archiver` (lines 19-27). The caller number the call fetch returns is a parameter; the uploaded audio body is not modelled, only bucket and key.
- The cutoff date arithmetic of line 51 (moment, hard-coded to 2020-09-01 rather than the current day) is the parameter `cutoffFor`; time-zone conversion by `utc()` (lines 78, 117) is left out and instants are taken as already-UTC components.
- JavaScript coercion: environment values are strings (so `"0"` is truthy there, while the model reads it as 0) and `<` compares them after conversion (lines 46, 86). Settings are modelled as integers, the bucket as a string.
- UtcFormat.StampRoundTrip: holds for years below 10000 and two-digit fields; moment output for years outside 0-9999 is not modelled (years are natural numbers).
- Pagination.ProcessOutdatedVoicemails: the listing is a finite chain, so a server whose cursors loop forever below the limit, where the source would never stop, is not modelled.
- Console output other than the per-page counts (the "Invalid status" line 97) is not modelled.
