/** The run: local index, remote index, diff, uploads, then deletes when `clean` is set, and the summary. */
module Orchestrator {
  import opened SyncTypes
  import opened Paths
  import opened Indexes
  import opened LocalFiles
  import opened RemoteFiles
  import opened Reconcile
  import opened Transfer

  /** The counts a successful run reports, with its closing line. */
  datatype Summary = Summary(localCount: nat, remoteCount: nat, uploaded: nat, cleaned: nat, message: string)

  function Digit(d: nat): char
    requires d < 10
  {
    ('0' as int + d) as char
  }

  function DigitValue(c: char): nat
  {
    if '0' <= c <= '9' then (c as int - '0' as int) else 0
  }

  /** A natural number in decimal, as a template literal prints it. */
  function Decimal(n: nat): string
  {
    if n < 10 then [Digit(n)] else Decimal(n / 10) + [Digit(n % 10)]
  }

  function ParseDecimal(s: string): nat
  {
    if s == [] then 0 else 10 * ParseDecimal(s[..|s| - 1]) + DigitValue(s[|s| - 1])
  }

  /** The printed count reads back as the count: decimal printing loses nothing. */
  lemma {:induction false} DecimalRoundTrip(n: nat)
    ensures |Decimal(n)| > 0
    ensures forall i :: 0 <= i < |Decimal(n)| ==> '0' <= Decimal(n)[i] <= '9'
    ensures ParseDecimal(Decimal(n)) == n
    ensures n > 0 ==> Decimal(n)[0] != '0'
  {
    if n >= 10 {
      DecimalRoundTrip(n / 10);
      var s := Decimal(n);
      assert s[..|s| - 1] == Decimal(n / 10);
    }
  }

  /** The `, cleaned N files` part of the closing line. */
  function CleanedSuffix(count: nat): string
  {
    if count > 0 then ", cleaned " + Decimal(count) + " files" else ""
  }

  /** The closing line `uploaded N files`, followed by the cleaned part. */
  function SummaryMessage(uploaded: nat, cleaned: nat): string
  {
    "uploaded " + Decimal(uploaded) + " files" + CleanedSuffix(cleaned)
  }

  /** The closing line starts with the uploaded count and ends there exactly when nothing was cleaned. */
  lemma CleanedSuffixIffCleaned(uploaded: nat, cleaned: nat)
    ensures var base := "uploaded " + Decimal(uploaded) + " files";
            && SummaryMessage(uploaded, cleaned) == base + CleanedSuffix(cleaned)
            && (SummaryMessage(uploaded, cleaned) == base <==> cleaned == 0)
  {
    var base := "uploaded " + Decimal(uploaded) + " files";
    if cleaned > 0 {
      assert |SummaryMessage(uploaded, cleaned)| > |base|;
    }
  }

  /** When something was cleaned, the cleaned part names the count of deleted files. */
  lemma CleanedSuffixNamesCount(cleaned: nat)
    requires cleaned > 0
    ensures var suffix := CleanedSuffix(cleaned);
            && |suffix| > 16
            && suffix[..10] == ", cleaned " && suffix[|suffix| - 6..] == " files"
            && ParseDecimal(suffix[10..|suffix| - 6]) == cleaned
  {
    DecimalRoundTrip(cleaned);
    var suffix := CleanedSuffix(cleaned);
    assert suffix[10..|suffix| - 6] == Decimal(cleaned);
  }

  /** The stages of `process` after a diff that found no unchanged file: upload every local file,
      then, when `clean` is set, delete the remote files with no local counterpart. */
  method UploadAndClean(bucket: Bucket, cos: Config, localFiles: FileIndex, remoteFiles: FileIndex,
                        remoteOrder: seq<string>, read: string -> string, rejects: Request -> bool)
    returns (r: Outcome<Error>, summary: Option<Summary>, uploadOrder: seq<string>, deleteOrder: seq<string>)
    requires IsEnumeration(remoteOrder, remoteFiles.Keys)
    modifies bucket
    ensures r.Pass? <==> summary.Some?
    ensures var ups := UploadRequests(cos, uploadOrder, read);
            var dels := DeleteRequests(cos, deleteOrder);
            var deleteSet := DeleteSet(localFiles, remoteFiles, cos.clean);
            && IsEnumeration(uploadOrder, localFiles.Keys)
            && (Executed(ups, rejects).Fail? ==>
                  && r == Executed(ups, rejects) && deleteOrder == []
                  && bucket.log == old(bucket.log) + Issued(ups, rejects)
                  && bucket.objects == ApplyAll(old(bucket.objects), ups[..FirstRejected(ups, rejects)]))
            && (Executed(ups, rejects).Pass? ==>
                  && IsEnumeration(deleteOrder, deleteSet)
                  && r == Executed(dels, rejects)
                  && bucket.log == old(bucket.log) + ups + Issued(dels, rejects)
                  && bucket.objects == ApplyAll(ApplyAll(old(bucket.objects), ups), dels[..FirstRejected(dels, rejects)]))
            && (r.Pass? ==> summary == Some(Summary(|localFiles|, |remoteFiles|, |localFiles|,
                                                    |deleteSet|, SummaryMessage(|localFiles|, |deleteSet|))))
  {
    summary, deleteOrder := None, [];
    var localFileKeys := localFiles.Keys;
    uploadOrder := Enumerate(localFileKeys);
    var uploaded;
    r, uploaded := bucket.UploadFiles(cos, uploadOrder, read, rejects);
    if r.Fail? {
      return;
    }
    ghost var ups := UploadRequests(cos, uploadOrder, read);
    assert ups[..|ups|] == ups;
    assert bucket.log == old(bucket.log) + ups;
    assert bucket.objects == ApplyAll(old(bucket.objects), ups);

    var cleanedFilesCount := 0;
    if cos.clean {
      var deletedFiles := FindDeletedFiles(localFileKeys, remoteFiles.Keys, remoteOrder);
      deleteOrder := Enumerate(deletedFiles);
      var cleaned;
      r, cleaned := bucket.CleanDeleteFiles(cos, deleteOrder, rejects);
      if r.Fail? {
        return;
      }
      EnumerationSize(deleteOrder, deletedFiles);
      cleanedFilesCount := |deletedFiles|;
    } else {
      ghost var dels := DeleteRequests(cos, deleteOrder);
      assert dels == [] && dels[..0] == [];
      assert bucket.log == old(bucket.log) + ups + Issued(dels, rejects);
      assert bucket.objects == ApplyAll(ApplyAll(old(bucket.objects), ups), dels[..FirstRejected(dels, rejects)]);
    }
    assert |localFileKeys| == |localFiles|;
    summary := Some(Summary(|localFiles|, |remoteFiles|, |localFileKeys|, cleanedFilesCount,
                            SummaryMessage(|localFileKeys|, cleanedFilesCount)));
  }

  /** `process`: every stage runs only after the one before it succeeded; any failure ends the run. */
  method Process(bucket: Bucket, cos: Config, tree: FsNode, md5: string -> string,
                 replies: seq<Option<Page>>, read: string -> string, rejects: Request -> bool)
    returns (r: Outcome<Error>, summary: Option<Summary>, requested: seq<Option<string>>,
             uploadOrder: seq<string>, deleteOrder: seq<string>)
    requires Ends(replies)
    modifies bucket
    ensures r.Pass? <==> summary.Some?
    ensures var local := LocalIndex(cos.localPath, tree, md5);
            local.Err? ==>
              && r == Fail(local.error) && requested == []
              && bucket.log == old(bucket.log) && bucket.objects == old(bucket.objects)
    ensures var local := LocalIndex(cos.localPath, tree, md5);
            var remote := RemoteListing(cos.remotePath, replies);
            local.Ok? ==>
              && |requested| == StopIndex(replies) + 1
              && (forall k :: 0 <= k < |requested| ==> requested[k] == Marker(replies, k))
              && (remote.Err? ==>
                    r == Fail(remote.error) && bucket.log == old(bucket.log) && bucket.objects == old(bucket.objects))
    ensures var local := LocalIndex(cos.localPath, tree, md5);
            var remote := RemoteListing(cos.remotePath, replies);
            local.Ok? && remote.Ok? && HasSameFingerprint(local.value, remote.value) ==>
              && r == Fail(NotAFunction(DeleteCallee))
              && bucket.log == old(bucket.log) && bucket.objects == old(bucket.objects)
    ensures var local := LocalIndex(cos.localPath, tree, md5);
            var remote := RemoteListing(cos.remotePath, replies);
            local.Ok? && remote.Ok? && !HasSameFingerprint(local.value, remote.value) ==>
              var ups := UploadRequests(cos, uploadOrder, read);
              var dels := DeleteRequests(cos, deleteOrder);
              var deleteSet := DeleteSet(local.value, remote.value, cos.clean);
              && IsEnumeration(uploadOrder, local.value.Keys)
              && (Executed(ups, rejects).Fail? ==>
                    && r == Executed(ups, rejects) && deleteOrder == []
                    && bucket.log == old(bucket.log) + Issued(ups, rejects)
                    && bucket.objects == ApplyAll(old(bucket.objects), ups[..FirstRejected(ups, rejects)]))
              && (Executed(ups, rejects).Pass? ==>
                    && IsEnumeration(deleteOrder, deleteSet)
                    && r == Executed(dels, rejects)
                    && bucket.log == old(bucket.log) + ups + Issued(dels, rejects)
                    && bucket.objects == ApplyAll(ApplyAll(old(bucket.objects), ups), dels[..FirstRejected(dels, rejects)]))
              && (r.Pass? ==> summary == Some(Summary(|local.value|, |remote.value|, |local.value|,
                                                      |deleteSet|, SummaryMessage(|local.value|, |deleteSet|))))
  {
    summary, requested, uploadOrder, deleteOrder := None, [], [], [];
    var local := CollectLocalFiles(cos.localPath, tree, md5);
    if local.Err? {
      return Fail(local.error), None, [], [], [];
    }
    var localFiles := local.value;

    var remote;
    remote, requested := CollectRemoteFiles(cos.remotePath, replies);
    if remote.Err? {
      r := Fail(remote.error);
      return;
    }
    var remoteFiles := remote.value;
    var remoteOrder := Enumerate(remoteFiles.Keys);

    r := DiffAsWritten(localFiles, remoteFiles, remoteOrder);
    if r.Fail? {
      return;
    }
    r, summary, uploadOrder, deleteOrder := UploadAndClean(bucket, cos, localFiles, remoteFiles, remoteOrder, read, rejects);
  }

  /** Every local key, uploaded under the remote prefix and listed back, strips to itself, so a
      later listing is keyed like the local index it was uploaded from. */
  lemma UploadedKeysListBack(cos: Config, tree: FsNode, md5: string -> string)
    requires LocalIndex(cos.localPath, tree, md5).Ok?
    ensures forall k :: k in LocalIndex(cos.localPath, tree, md5).value ==>
              Relative(Join(cos.remotePath, k), cos.remotePath) == k
  {
    LocalIndexKeys(cos.localPath, tree, md5);
    forall k | k in LocalIndex(cos.localPath, tree, md5).value
      ensures Relative(Join(cos.remotePath, k), cos.remotePath) == k
    {
      KeyRoundTrip(cos.remotePath, k);
    }
  }
}
