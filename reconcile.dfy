/** Reconciling the local and remote indexes: the diff loop as written, the filter its comment
    describes, and the set of remote keys to delete. */
module Reconcile {
  import opened SyncTypes
  import opened Indexes

  /** The message of the TypeError the diff loop raises. */
  const DeleteCallee: string := "localFiles.delete"

  /** Some remote key holds the same fingerprint as the local file under that key. */
  predicate HasSameFingerprint(local: FileIndex, remote: FileIndex)
  {
    exists k :: k in remote && k in local && local[k] == remote[k]
  }

  /** The diff loop as written: for each remote key whose fingerprint equals the local one it calls
      `localFiles.delete`, which a plain object does not have, so the first match throws.
      A key missing locally reads as `undefined` and never matches. Nothing else is changed. */
  method DiffAsWritten(local: FileIndex, remote: FileIndex, order: seq<string>) returns (r: Outcome<Error>)
    requires IsEnumeration(order, remote.Keys)
    ensures r == if HasSameFingerprint(local, remote) then Fail(NotAFunction(DeleteCallee)) else Pass
  {
    var i := 0;
    while i < |order|
      invariant 0 <= i <= |order|
      invariant forall j :: 0 <= j < i ==> !(order[j] in local && local[order[j]] == remote[order[j]])
    {
      var file := order[i];
      if file in local && local[file] == remote[file] {
        return Fail(NotAFunction(DeleteCallee));
      }
      i := i + 1;
    }
    assert forall k :: k in remote ==> k in order;
    return Pass;
  }

  /** The filter the comment above the diff loop describes, which the code does not achieve:
      the local keys whose file is missing remotely or has a different fingerprint there. */
  function IntendedUploadSet(local: FileIndex, remote: FileIndex): set<string>
  {
    set k | k in local && (k !in remote || remote[k] != local[k])
  }

  /** `findDeletedFiles`: the remote keys, in iteration order, that are not local keys. */
  method FindDeletedFiles(localFiles: set<string>, remoteFiles: set<string>, order: seq<string>)
    returns (deleted: set<string>)
    requires IsEnumeration(order, remoteFiles)
    ensures deleted == remoteFiles - localFiles
    ensures deleted <= remoteFiles && deleted !! localFiles
  {
    deleted := {};
    var i := 0;
    while i < |order|
      invariant 0 <= i <= |order|
      invariant deleted == (set f | f in order[..i]) - localFiles
    {
      var file := order[i];
      assert order[..i + 1] == order[..i] + [file];
      if file !in localFiles {
        deleted := deleted + {file};
      }
      i := i + 1;
    }
    assert order[..i] == order;
  }

  /** The delete set of a run: the remote keys with no local key when `clean` is set, nothing otherwise. */
  function DeleteSet(local: FileIndex, remote: FileIndex, clean: bool): set<string>
  {
    if clean then remote.Keys - local.Keys else {}
  }

  /** As written, all local keys are uploaded; that agrees with the intended filter exactly when
      no fingerprint matches, and when one does match the diff loop throws instead. */
  lemma AsWrittenAgreesWithIntentIffNoMatch(local: FileIndex, remote: FileIndex)
    ensures IntendedUploadSet(local, remote) <= local.Keys
    ensures local.Keys == IntendedUploadSet(local, remote) <==> !HasSameFingerprint(local, remote)
  {
    if HasSameFingerprint(local, remote) {
      var k :| k in remote && k in local && local[k] == remote[k];
      assert k !in IntendedUploadSet(local, remote);
    }
  }

  /** A path is never both uploaded and deleted, for the as-written and for the intended upload set. */
  lemma UploadsAndDeletesDisjoint(local: FileIndex, remote: FileIndex, clean: bool)
    ensures local.Keys !! DeleteSet(local, remote, clean)
    ensures IntendedUploadSet(local, remote) !! DeleteSet(local, remote, clean)
    ensures DeleteSet(local, remote, clean) <= remote.Keys
  {
  }

  /** A second run against an already synced bucket: the intended filter uploads nothing and
      nothing is deleted; as written the run throws unless the index is empty. */
  lemma SyncedRunIsIdle(index: FileIndex, clean: bool)
    ensures IntendedUploadSet(index, index) == {}
    ensures DeleteSet(index, index, clean) == {}
    ensures HasSameFingerprint(index, index) <==> index != map[]
  {
    if index != map[] {
      var k :| k in index;
      assert index[k] == index[k];
    }
  }

  /** Local {a.txt: H1, b.txt: H2} against remote {a.txt: H1, c.txt: H3}: the intended filter keeps
      only b.txt and clean deletes only c.txt, but as written the match on a.txt throws. */
  lemma TwoFilesOneUnchanged()
    ensures var local := map["a.txt" := "H1", "b.txt" := "H2"];
            var remote := map["a.txt" := "H1", "c.txt" := "H3"];
            && IntendedUploadSet(local, remote) == {"b.txt"}
            && DeleteSet(local, remote, true) == {"c.txt"}
            && DeleteSet(local, remote, false) == {}
            && HasSameFingerprint(local, remote)
  {
    var local := map["a.txt" := "H1", "b.txt" := "H2"];
    var remote := map["a.txt" := "H1", "c.txt" := "H3"];
    assert "a.txt" != "b.txt" && "a.txt" != "c.txt" && "b.txt" != "c.txt";
    assert local["a.txt"] == remote["a.txt"];
    assert "H1" != "H2";
  }

  /** An empty local tree against a non-empty bucket: nothing matches, nothing is uploaded, and
      clean deletes every remote key. */
  lemma EmptyTreeCleansEverything(remote: FileIndex)
    ensures !HasSameFingerprint(map[], remote)
    ensures IntendedUploadSet(map[], remote) == {}
    ensures DeleteSet(map[], remote, true) == remote.Keys
  {
  }
}
