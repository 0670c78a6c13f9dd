/**
 * What the eraser does with one listed recording: the status gate of
 * `archiveVoicemail` and the fetch-fetch-upload sequence of
 * `backupVoicemail`, including the storage key it files the audio under.
 */
module Archive {

  import opened Wrappers
  import opened Decimal
  import opened UtcFormat

  /** The fields of a listed recording that the eraser reads. */
  datatype Voicemail = Voicemail(sid: string, callSid: string, status: string, dateCreated: UtcTime)

  /**
   * A remote call a record action can issue: a read or a delete against the
   * account's REST resources, or an upload to the archive bucket.
   */
  datatype Request = Get(path: string) | Delete(path: string) | Upload(bucket: string, key: string)

  /** The only status that is archived; the test is exact string equality. */
  const Completed: string := "completed"

  const KeySuffix: string := "_UTC.mp3"

  function RecordingPath(sid: string): string {
    "Recordings/" + sid + ".mp3"
  }

  function CallPath(callSid: string): string {
    "Calls/" + callSid + ".json"
  }

  /** 'YYYY/M/D/': the directory part, the year zero-filled, month and day without padding. */
  function Directory(t: UtcTime): string {
    ZeroFill(t.year, 4) + "/" + Dec(t.month) + "/" + Dec(t.day) + "/"
  }

  /** The archive key: directory, caller number, then the padded UTC timestamp. */
  function StorageKey(t: UtcTime, from: string): (key: string)
    ensures |key| == |Directory(t)| + |from| + |KeyTail(t)|
    ensures key[..|Directory(t)|] == Directory(t)
    ensures key[|Directory(t)|..|key| - |KeyTail(t)|] == from
    ensures key[|key| - |KeyTail(t)|..] == KeyTail(t)
  {
    ThreeParts(Directory(t), from, KeyTail(t));
    Directory(t) + from + KeyTail(t)
  }

  /** Where the three parts of a concatenation sit in it. */
  lemma ThreeParts(a: string, b: string, c: string)
    ensures var s := a + b + c;
      s[..|a|] == a && s[|a|..|s| - |c|] == b && s[|s| - |c|..] == c
  {
    var s := a + b + c;
    assert s[..|a|] == (a + b)[..|a|];
    assert s[|a|..|s| - |c|] == (a + b)[|a|..];
  }

  /** '_YYYYMMDDTHH:mm:ss_UTC.mp3'. */
  function KeyTail(t: UtcTime): string {
    "_" + Stamp(t) + KeySuffix
  }

  /** Length of the run of digits that starts `s`. */
  function DigitRun(s: string): (n: nat)
    ensures n <= |s| && AllDigits(s[..n])
    ensures n < |s| ==> !IsDigit(s[n])
  {
    if s == [] || !IsDigit(s[0]) then 0
    else
      var n := 1 + DigitRun(s[1..]);
      assert s[..n] == [s[0]] + s[1..][..n - 1];
      n
  }

  /** Reads one directory component: a non-empty digit run and the '/' after it. */
  function TakeComponent(s: string): Option<(nat, string)> {
    var n := DigitRun(s);
    if 0 < n < |s| && s[n] == '/' then Some((Value(s[..n]), s[n + 1..])) else None
  }

  /**
   * Reads a key back into the instant and the caller number it was built
   * from; fails unless the directory and the timestamp name the same day.
   */
  function DecodeKey(key: string): Option<(UtcTime, string)> {
    if |key| < 26 then None
    else
      var head, tail := key[..|key| - 26], key[|key| - 26..];
      var stamp := DecodeStamp(tail[1..18]);
      var year := TakeComponent(head);
      if tail[0] != '_' || tail[18..] != KeySuffix || stamp.None? || year.None? then None
      else
        var month := TakeComponent(year.value.1);
        if month.None? then None
        else
          var day := TakeComponent(month.value.1);
          if day.None? then None
          else
            var t := stamp.value;
            if (year.value.0, month.value.0, day.value.0) == (t.year, t.month, t.day)
            then Some((t, day.value.1))
            else None
  }

  lemma {:induction false} DigitRunOf(d: string, rest: string)
    requires AllDigits(d)
    requires rest == [] || !IsDigit(rest[0])
    ensures DigitRun(d + rest) == |d|
  {
    if d != [] {
      assert (d + rest)[1..] == d[1..] + rest;
      DigitRunOf(d[1..], rest);
    } else {
      assert d + rest == rest;
    }
  }

  lemma TakeComponentOf(d: string, rest: string)
    requires 1 <= |d| && AllDigits(d)
    ensures TakeComponent(d + "/" + rest) == Some((Value(d), rest))
  {
    var s := d + "/" + rest;
    assert s == d + ("/" + rest);
    DigitRunOf(d, "/" + rest);
    assert s[..|d|] == d;
    assert s[|d| + 1..] == rest;
  }

  /**
   * Every part of the key can be read back: the key names the instant and
   * the caller number it was built from, and its directory part agrees with
   * its timestamp part.
   */
  lemma StorageKeyRoundTrip(t: UtcTime, from: string)
    requires TimeFits(t)
    ensures DecodeKey(StorageKey(t, from)) == Some((t, from))
  {
    StampRoundTrip(t);
    var key := StorageKey(t, from);
    var head, tail := Directory(t) + from, KeyTail(t);
    assert |tail| == 26;
    assert key[..|key| - 26] == head;
    assert key[|key| - 26..] == tail;
    assert tail[1..18] == Stamp(t);
    assert tail[18..] == KeySuffix;
    var dy, dm, dd := ZeroFill(t.year, 4), Dec(t.month), Dec(t.day);
    DirectoryComponents(t, from);
    TakeComponentOf(dy, dm + "/" + (dd + "/" + from));
    TakeComponentOf(dm, dd + "/" + from);
    TakeComponentOf(dd, from);
  }

  lemma DirectoryComponents(t: UtcTime, from: string)
    ensures Directory(t) + from == ZeroFill(t.year, 4) + "/" + (Dec(t.month) + "/" + (Dec(t.day) + "/" + from))
  {
  }

  /**
   * `backupVoicemail`: fetch the audio, fetch the call, then upload the
   * audio under `key` (built from the call's caller number).
   */
  function BackupRequests(vm: Voicemail, bucket: string, key: string): (reqs: seq<Request>)
    ensures |reqs| == 3 && reqs[0] == Get(RecordingPath(vm.sid)) && reqs[1] == Get(CallPath(vm.callSid))
    ensures reqs[2] == Upload(bucket, key)
    ensures forall q :: q in reqs ==> !q.Delete?
  {
    [Get(RecordingPath(vm.sid)), Get(CallPath(vm.callSid)), Upload(bucket, key)]
  }

  /**
   * `archiveVoicemail` on one record, assuming each remote call succeeds:
   * the requests it issues, in order. `callFrom` is the caller number the
   * record's call resource reports.
   */
  function ArchiveVoicemail(vm: Voicemail, callFrom: string, bucket: string): (reqs: seq<Request>)
    ensures reqs != [] <==> vm.status == Completed
    ensures vm.status == Completed ==>
              |reqs| == 3 && reqs[0] == Get(RecordingPath(vm.sid)) && reqs[1] == Get(CallPath(vm.callSid))
    ensures forall q :: q in reqs ==> !q.Delete?
    ensures forall i :: 0 <= i < |reqs| - 1 ==> reqs[i].Get?
    ensures reqs != [] ==> reqs[|reqs| - 1] == Upload(bucket, StorageKey(vm.dateCreated, callFrom))
    ensures forall q :: q in reqs && q.Upload? ==> q.bucket == bucket
    ensures Get(RecordingPath(vm.sid)) in reqs <==> vm.status == Completed
  {
    if vm.status == Completed then BackupRequests(vm, bucket, StorageKey(vm.dateCreated, callFrom)) else []
  }

  /**
   * The requests one page's records issue, in listing order. The source
   * runs the records concurrently, so only order-free facts about this
   * sequence (which keys are uploaded how often, absence of deletes)
   * describe it.
   */
  function PageRequests(vms: seq<Voicemail>, callFrom: string -> string, bucket: string): (reqs: seq<Request>)
    ensures forall q :: q in reqs ==> !q.Delete?
    ensures forall q :: q in reqs && q.Upload? ==> q.bucket == bucket
  {
    if vms == [] then []
    else ArchiveVoicemail(vms[0], callFrom(vms[0].callSid), bucket) + PageRequests(vms[1..], callFrom, bucket)
  }

  /** The key a record is archived under, given the caller numbers of the account's calls. */
  function ArchiveKey(vm: Voicemail, callFrom: string -> string): string {
    StorageKey(vm.dateCreated, callFrom(vm.callSid))
  }

  /** The keys of the completed records, one per record. */
  function CompletedKeys(vms: seq<Voicemail>, callFrom: string -> string): seq<string> {
    if vms == [] then []
    else (if vms[0].status == Completed then [ArchiveKey(vms[0], callFrom)] else []) + CompletedKeys(vms[1..], callFrom)
  }

  /** The keys of the uploads among some requests, one per upload. */
  function UploadKeys(reqs: seq<Request>): seq<string> {
    if reqs == [] then [] else (if reqs[0].Upload? then [reqs[0].key] else []) + UploadKeys(reqs[1..])
  }

  lemma {:induction false} UploadKeysAppend(a: seq<Request>, b: seq<Request>)
    ensures UploadKeys(a + b) == UploadKeys(a) + UploadKeys(b)
  {
    if a == [] {
      assert a + b == b;
    } else {
      assert (a + b)[1..] == a[1..] + b;
      UploadKeysAppend(a[1..], b);
    }
  }

  lemma BackupUploadsOnce(vm: Voicemail, bucket: string, key: string)
    ensures UploadKeys(BackupRequests(vm, bucket, key)) == [key]
  {
    var reqs := BackupRequests(vm, bucket, key);
    assert reqs[1..] == [reqs[1], Upload(bucket, key)];
    assert reqs[1..][1..] == [Upload(bucket, key)];
    assert reqs[1..][1..][1..] == [];
    assert UploadKeys(reqs[1..][1..]) == [key];
    assert UploadKeys(reqs[1..]) == [key];
  }

  lemma ArchiveVoicemailUploads(vm: Voicemail, callFrom: string, bucket: string)
    ensures UploadKeys(ArchiveVoicemail(vm, callFrom, bucket))
            == if vm.status == Completed then [StorageKey(vm.dateCreated, callFrom)] else []
  {
    if vm.status == Completed {
      BackupUploadsOnce(vm, bucket, StorageKey(vm.dateCreated, callFrom));
    }
  }

  /**
   * A page uploads, into the configured bucket, the key of every completed
   * record exactly once and nothing else, and issues no delete at all.
   */
  lemma {:induction false} PageArchivesCompletedOnly(vms: seq<Voicemail>, callFrom: string -> string, bucket: string)
    ensures multiset(UploadKeys(PageRequests(vms, callFrom, bucket))) == multiset(CompletedKeys(vms, callFrom))
    ensures forall vm :: vm in vms && vm.status == Completed ==>
              Upload(bucket, ArchiveKey(vm, callFrom)) in PageRequests(vms, callFrom, bucket)
    ensures forall q :: q in PageRequests(vms, callFrom, bucket) ==> !q.Delete?
    ensures forall q :: q in PageRequests(vms, callFrom, bucket) && q.Upload? ==> q.bucket == bucket
  {
    if vms != [] {
      var first := ArchiveVoicemail(vms[0], callFrom(vms[0].callSid), bucket);
      var rest := PageRequests(vms[1..], callFrom, bucket);
      PageArchivesCompletedOnly(vms[1..], callFrom, bucket);
      UploadKeysAppend(first, rest);
      ArchiveVoicemailUploads(vms[0], callFrom(vms[0].callSid), bucket);
      forall vm | vm in vms && vm.status == Completed
        ensures Upload(bucket, ArchiveKey(vm, callFrom)) in first + rest
      {
        if vm == vms[0] {
          assert first[|first| - 1] == Upload(bucket, ArchiveKey(vm, callFrom));
        } else {
          assert vm in vms[1..];
        }
      }
    }
  }

  /** The requests of a run of pages, page after page. */
  function SweepRequests(batches: seq<seq<Voicemail>>, callFrom: string -> string, bucket: string): seq<Request> {
    if batches == [] then []
    else PageRequests(batches[0], callFrom, bucket) + SweepRequests(batches[1..], callFrom, bucket)
  }

  /** The keys of the completed records of a run of pages. */
  function CompletedKeysIn(batches: seq<seq<Voicemail>>, callFrom: string -> string): seq<string> {
    if batches == [] then [] else CompletedKeys(batches[0], callFrom) + CompletedKeysIn(batches[1..], callFrom)
  }

  /**
   * Across a whole sweep: the key of every completed record of the
   * processed pages is uploaded exactly once and nothing else is, every
   * upload goes into the configured bucket, and nothing is deleted.
   */
  lemma SweepArchivesCompletedOnly(batches: seq<seq<Voicemail>>, callFrom: string -> string, bucket: string)
    ensures multiset(UploadKeys(SweepRequests(batches, callFrom, bucket))) == multiset(CompletedKeysIn(batches, callFrom))
    ensures forall i, vm :: 0 <= i < |batches| && vm in batches[i] && vm.status == Completed ==>
              Upload(bucket, ArchiveKey(vm, callFrom)) in SweepRequests(batches, callFrom, bucket)
    ensures forall q :: q in SweepRequests(batches, callFrom, bucket) ==> !q.Delete?
    ensures forall q :: q in SweepRequests(batches, callFrom, bucket) && q.Upload? ==> q.bucket == bucket
  {
    SweepUploadKeys(batches, callFrom, bucket);
    SweepUploadsEveryCompleted(batches, callFrom, bucket);
  }

  lemma {:induction false} SweepUploadKeys(batches: seq<seq<Voicemail>>, callFrom: string -> string, bucket: string)
    ensures multiset(UploadKeys(SweepRequests(batches, callFrom, bucket))) == multiset(CompletedKeysIn(batches, callFrom))
    ensures forall q :: q in SweepRequests(batches, callFrom, bucket) ==> !q.Delete?
    ensures forall q :: q in SweepRequests(batches, callFrom, bucket) && q.Upload? ==> q.bucket == bucket
  {
    if batches != [] {
      var first := PageRequests(batches[0], callFrom, bucket);
      var rest := SweepRequests(batches[1..], callFrom, bucket);
      PageArchivesCompletedOnly(batches[0], callFrom, bucket);
      SweepUploadKeys(batches[1..], callFrom, bucket);
      UploadKeysAppend(first, rest);
    }
  }

  lemma {:induction false} SweepUploadsEveryCompleted(batches: seq<seq<Voicemail>>, callFrom: string -> string, bucket: string)
    ensures forall i, vm :: 0 <= i < |batches| && vm in batches[i] && vm.status == Completed ==>
              Upload(bucket, ArchiveKey(vm, callFrom)) in SweepRequests(batches, callFrom, bucket)
  {
    if batches != [] {
      var first := PageRequests(batches[0], callFrom, bucket);
      var rest := SweepRequests(batches[1..], callFrom, bucket);
      PageArchivesCompletedOnly(batches[0], callFrom, bucket);
      SweepUploadsEveryCompleted(batches[1..], callFrom, bucket);
      forall i, vm | 0 <= i < |batches| && vm in batches[i] && vm.status == Completed
        ensures Upload(bucket, ArchiveKey(vm, callFrom)) in first + rest
      {
        var q := Upload(bucket, ArchiveKey(vm, callFrom));
        if i == 0 {
          assert q in first;
        } else {
          assert batches[1..][i - 1] == batches[i];
          assert q in rest;
        }
        InConcat(q, first, rest);
      }
    }
  }

  lemma InConcat<T>(x: T, a: seq<T>, b: seq<T>)
    requires x in a || x in b
    ensures x in a + b
  {
  }
}
