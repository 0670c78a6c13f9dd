/**
 * The eraser module's own state and its entry point `archiveVoicemails`:
 * the module-level settings that each invocation overwrites, then one sweep
 * of the listing with the settings just resolved.
 */
module VoicemailEraser {

  import opened Settings
  import opened UtcFormat
  import opened Archive
  import opened Pagination

  /** What an invocation returns: the handler's status code, or the listing URL whose fetch failed. */
  datatype Response = Ok(statusCode: int) | ListingFetchFailed(url: string)

  /**
   * The module-level `let` settings. They live as long as the module does,
   * so each invocation falls back on whatever the previous one left there.
   */
  class ModuleState {
    var retentionDays: int
    var invocationPageSize: int
    var invocationAsyncLimit: int
    var invocationRecordLimit: int
    var archiveS3Bucket: string

    /** The values the module starts with when it is loaded. */
    constructor ()
      ensures retentionDays == DefaultRetentionDays
      ensures invocationPageSize == DefaultPageSize
      ensures invocationAsyncLimit == DefaultAsyncLimit
      ensures invocationRecordLimit == DefaultRecordLimit
      ensures archiveS3Bucket == DefaultArchiveBucket
    {
      retentionDays := DefaultRetentionDays;
      invocationPageSize := DefaultPageSize;
      invocationAsyncLimit := DefaultAsyncLimit;
      invocationRecordLimit := DefaultRecordLimit;
      archiveS3Bucket := DefaultArchiveBucket;
    }

    /**
     * Settles every setting from the parameter-store document and the
     * environment, falling back on the current value, and raises the
     * retention period to the minimum.
     */
    method Configure(config: Sources, env: Sources)
      modifies this
      ensures retentionDays == EffectiveRetention(config, env, old(retentionDays))
      ensures retentionDays >= MinRetentionDays
      ensures invocationPageSize == Resolve(config.invocationPageSize, env.invocationPageSize, old(invocationPageSize), 0)
      ensures invocationAsyncLimit == Resolve(config.invocationAsyncLimit, env.invocationAsyncLimit, old(invocationAsyncLimit), 0)
      ensures invocationRecordLimit == Resolve(config.invocationRecordLimit, env.invocationRecordLimit, old(invocationRecordLimit), 0)
      ensures archiveS3Bucket == Resolve(config.archiveS3Bucket, env.archiveS3Bucket, old(archiveS3Bucket), "")
    {
      retentionDays := Resolve(config.retentionDays, env.retentionDays, retentionDays, 0);
      retentionDays := ClampRetention(retentionDays);
      invocationPageSize := Resolve(config.invocationPageSize, env.invocationPageSize, invocationPageSize, 0);
      invocationAsyncLimit := Resolve(config.invocationAsyncLimit, env.invocationAsyncLimit, invocationAsyncLimit, 0);
      invocationRecordLimit := Resolve(config.invocationRecordLimit, env.invocationRecordLimit, invocationRecordLimit, 0);
      archiveS3Bucket := Resolve(config.archiveS3Bucket, env.archiveS3Bucket, archiveS3Bucket, "");
    }

    /**
     * One invocation: configure, then sweep the listing starting from the
     * filtered first-page URL, and archive the records of every processed
     * page. `cutoffFor` gives the cutoff day for a retention period (the
     * date arithmetic of the source); `callFrom` gives the caller number of
     * a call (what the call fetch returns).
     */
    method ArchiveVoicemails(config: Sources, env: Sources, cutoffFor: int -> UtcDate, callFrom: string -> string,
                             listing: seq<Page>)
      returns (response: Response, fetched: seq<string>, processed: seq<seq<Voicemail>>, requests: seq<Request>)
      modifies this
      ensures retentionDays == EffectiveRetention(config, env, old(retentionDays))
      ensures invocationPageSize == Resolve(config.invocationPageSize, env.invocationPageSize, old(invocationPageSize), 0)
      ensures invocationAsyncLimit == Resolve(config.invocationAsyncLimit, env.invocationAsyncLimit, old(invocationAsyncLimit), 0)
      ensures invocationRecordLimit == Resolve(config.invocationRecordLimit, env.invocationRecordLimit, old(invocationRecordLimit), 0)
      ensures fetched != [] && fetched[0] == FirstPageUrl(invocationPageSize, cutoffFor(retentionDays))
      ensures |fetched| == |processed| + (if response.Ok? then 0 else 1)
      ensures forall i :: 1 <= i < |fetched| ==>
                i - 1 < |listing| && HasCursor(listing[i - 1]) && fetched[i] == NextPageUrl(listing[i - 1])
      ensures |processed| == PagesSwept(listing, invocationRecordLimit)
      ensures forall i :: 0 <= i < |processed| ==> processed[i] == listing[i].recordings
      ensures response.Ok? <==> listing != [] && !Continues(listing[|processed| - 1], invocationRecordLimit)
      ensures response.Ok? ==> response.statusCode == 200
      ensures response.ListingFetchFailed? ==> response.url == fetched[|fetched| - 1]
      ensures archiveS3Bucket == Resolve(config.archiveS3Bucket, env.archiveS3Bucket, old(archiveS3Bucket), "")
      ensures requests == SweepRequests(processed, callFrom, archiveS3Bucket)
      ensures multiset(UploadKeys(requests)) == multiset(CompletedKeysIn(processed, callFrom))
      ensures forall q :: q in requests ==> !q.Delete?
      ensures forall q :: q in requests && q.Upload? ==> q.bucket == archiveS3Bucket
    {
      Configure(config, env);
      var firstUrl := FirstPageUrl(invocationPageSize, cutoffFor(retentionDays));
      var reported, completed;
      fetched, processed, reported, completed := ProcessOutdatedVoicemails(listing, firstUrl, invocationRecordLimit);
      requests := SweepRequests(processed, callFrom, archiveS3Bucket);
      SweepArchivesCompletedOnly(processed, callFrom, archiveS3Bucket);
      if completed {
        response := Ok(200);
      } else {
        response := ListingFetchFailed(fetched[|fetched| - 1]);
      }
    }
  }
}
