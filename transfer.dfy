/** The transfer executor: sequential uploads and deletes against a bucket, stopping at the first failure. */
module Transfer {
  import opened SyncTypes
  import opened Paths
  import opened Indexes

  /** The settings the core reads: the local root, the remote prefix and the `clean` flag. */
  datatype Config = Config(localPath: string, remotePath: string, clean: bool)

  /** A request sent to the bucket: `putObject` of a body under a key, or `deleteObject` of a key. */
  datatype Request = Put(key: string, body: string) | Delete(key: string)

  /** The error a rejected request ends the run with. */
  function Failure(req: Request): Error
  {
    match req
    case Put(k, _) => PutError(k)
    case Delete(k) => DeleteError(k)
  }

  /** What one accepted request does to the bucket's objects (key to content). */
  function Effect(objects: map<string, string>, req: Request): map<string, string>
  {
    match req
    case Put(k, body) => objects[k := body]
    case Delete(k) => objects - {k}
  }

  /** The objects after the accepted requests `reqs`, applied in order. */
  function ApplyAll(objects: map<string, string>, reqs: seq<Request>): map<string, string>
  {
    if reqs == [] then objects else Effect(ApplyAll(objects, reqs[..|reqs| - 1]), reqs[|reqs| - 1])
  }

  /** The position of the first request the bucket rejects, or `|reqs|` when it accepts them all. */
  function FirstRejected(reqs: seq<Request>, rejects: Request -> bool): (n: nat)
    ensures n <= |reqs|
    ensures forall i :: 0 <= i < n ==> !rejects(reqs[i])
    ensures n < |reqs| ==> rejects(reqs[n])
  {
    if reqs == [] || rejects(reqs[0]) then 0 else 1 + FirstRejected(reqs[1..], rejects)
  }

  /** The requests a sequential loop issues: all of them up to and including the first rejected one. */
  function Issued(reqs: seq<Request>, rejects: Request -> bool): seq<Request>
  {
    var n := FirstRejected(reqs, rejects);
    if n < |reqs| then reqs[..n + 1] else reqs
  }

  /** How a sequential loop over `reqs` ends: it passes, or fails with the first rejected request. */
  function Executed(reqs: seq<Request>, rejects: Request -> bool): Outcome<Error>
  {
    var n := FirstRejected(reqs, rejects);
    if n < |reqs| then Fail(Failure(reqs[n])) else Pass
  }

  /** The uploads of `files`, in order: each local file's bytes under `join(remotePath, file)`. */
  function UploadRequests(cos: Config, files: seq<string>, read: string -> string): seq<Request>
  {
    seq(|files|, i requires 0 <= i < |files| =>
      Put(Join(cos.remotePath, files[i]), read(Join(cos.localPath, files[i]))))
  }

  /** The deletes of `files`, in order: each of `join(remotePath, file)`. */
  function DeleteRequests(cos: Config, files: seq<string>): seq<Request>
  {
    seq(|files|, i requires 0 <= i < |files| => Delete(Join(cos.remotePath, files[i])))
  }

  /** The remote bucket: its objects, and the log of the requests it has received. */
  class Bucket {
    var objects: map<string, string>
    var log: seq<Request>

    constructor (objects: map<string, string>)
      ensures this.objects == objects && log == []
    {
      this.objects := objects;
      log := [];
    }

    /** One SDK call, turned into a promise: `rejects` says whether the bucket refuses it. */
    method Send(req: Request, rejects: Request -> bool) returns (r: Outcome<Error>)
      modifies this
      ensures log == old(log) + [req]
      ensures r == if rejects(req) then Fail(Failure(req)) else Pass
      ensures objects == if rejects(req) then old(objects) else Effect(old(objects), req)
    {
      log := log + [req];
      if rejects(req) {
        return Fail(Failure(req));
      }
      objects := Effect(objects, req);
      return Pass;
    }

    /** `uploadFiles`: upload each file in turn, counting the completed ones; the first failure ends it. */
    method UploadFiles(cos: Config, files: seq<string>, read: string -> string, rejects: Request -> bool)
      returns (r: Outcome<Error>, count: nat)
      modifies this
      ensures var reqs := UploadRequests(cos, files, read);
              && log == old(log) + Issued(reqs, rejects)
              && objects == ApplyAll(old(objects), reqs[..FirstRejected(reqs, rejects)])
              && r == Executed(reqs, rejects)
              && count == FirstRejected(reqs, rejects)
      ensures r.Pass? ==> count == |files|
    {
      ghost var reqs := UploadRequests(cos, files, read);
      count := 0;
      while count < |files|
        invariant count <= |files|
        invariant count <= FirstRejected(reqs, rejects)
        invariant log == old(log) + reqs[..count]
        invariant objects == ApplyAll(old(objects), reqs[..count])
      {
        var file := files[count];
        assert reqs[..count + 1] == reqs[..count] + [reqs[count]];
        r := Send(Put(Join(cos.remotePath, file), read(Join(cos.localPath, file))), rejects);
        if r.Fail? {
          StopsAt(reqs, rejects, count);
          return;
        }
        assert reqs[..count + 1][..count] == reqs[..count];
        count := count + 1;
      }
      assert reqs[..count] == reqs;
      RunsThrough(reqs, rejects);
      r := Pass;
    }

    /** `cleanDeleteFiles`: delete each remote file in turn; the first failure ends it. */
    method CleanDeleteFiles(cos: Config, files: seq<string>, rejects: Request -> bool)
      returns (r: Outcome<Error>, count: nat)
      modifies this
      ensures var reqs := DeleteRequests(cos, files);
              && log == old(log) + Issued(reqs, rejects)
              && objects == ApplyAll(old(objects), reqs[..FirstRejected(reqs, rejects)])
              && r == Executed(reqs, rejects)
              && count == FirstRejected(reqs, rejects)
      ensures r.Pass? ==> count == |files|
    {
      ghost var reqs := DeleteRequests(cos, files);
      count := 0;
      while count < |files|
        invariant count <= |files|
        invariant count <= FirstRejected(reqs, rejects)
        invariant log == old(log) + reqs[..count]
        invariant objects == ApplyAll(old(objects), reqs[..count])
      {
        var file := files[count];
        assert reqs[..count + 1] == reqs[..count] + [reqs[count]];
        r := Send(Delete(Join(cos.remotePath, file)), rejects);
        if r.Fail? {
          StopsAt(reqs, rejects, count);
          return;
        }
        assert reqs[..count + 1][..count] == reqs[..count];
        count := count + 1;
      }
      assert reqs[..count] == reqs;
      RunsThrough(reqs, rejects);
      r := Pass;
    }
  }

  /** A loop that reaches a rejected request with none rejected before it stops there. */
  lemma StopsAt(reqs: seq<Request>, rejects: Request -> bool, i: nat)
    requires i < |reqs| && i <= FirstRejected(reqs, rejects) && rejects(reqs[i])
    ensures FirstRejected(reqs, rejects) == i
    ensures Issued(reqs, rejects) == reqs[..i + 1]
    ensures Executed(reqs, rejects) == Fail(Failure(reqs[i]))
  {
  }

  /** A loop that reaches the end without a rejection has issued everything and passes. */
  lemma RunsThrough(reqs: seq<Request>, rejects: Request -> bool)
    requires FirstRejected(reqs, rejects) == |reqs|
    ensures Issued(reqs, rejects) == reqs
    ensures Executed(reqs, rejects) == Pass
  {
  }

  /** If request i is rejected, nothing after it is issued, and the run fails. */
  lemma NothingIssuedAfterRejection(reqs: seq<Request>, rejects: Request -> bool, i: nat)
    requires i < |reqs| && rejects(reqs[i])
    ensures |Issued(reqs, rejects)| <= i + 1
    ensures Issued(reqs, rejects) == reqs[..|Issued(reqs, rejects)|]
    ensures Executed(reqs, rejects).Fail?
  {
  }

  /** The bucket changes only at the keys of the requests applied. */
  lemma {:induction false} ApplyAllUntouched(objects: map<string, string>, reqs: seq<Request>, k: string)
    requires forall i :: 0 <= i < |reqs| ==> reqs[i].key != k
    ensures (k in ApplyAll(objects, reqs)) == (k in objects)
    ensures k in objects ==> ApplyAll(objects, reqs)[k] == objects[k]
  {
    if reqs != [] {
      ApplyAllUntouched(objects, reqs[..|reqs| - 1], k);
    }
  }

  /** After the uploads of distinct files, each key holds the bytes of its local file. */
  lemma {:induction false} UploadsStored(objects: map<string, string>, cos: Config, files: seq<string>, read: string -> string)
    requires NoDuplicates(files)
    ensures forall i :: 0 <= i < |files| ==>
              && Join(cos.remotePath, files[i]) in ApplyAll(objects, UploadRequests(cos, files, read))
              && ApplyAll(objects, UploadRequests(cos, files, read))[Join(cos.remotePath, files[i])]
                 == read(Join(cos.localPath, files[i]))
  {
    if files != [] {
      var init := files[..|files| - 1];
      var last := files[|files| - 1];
      UploadsStored(objects, cos, init, read);
      assert UploadRequests(cos, files, read)[..|files| - 1] == UploadRequests(cos, init, read);
      assert forall i :: 0 <= i < |init| ==> init[i] == files[i];
      forall i | 0 <= i < |init|
        ensures Join(cos.remotePath, init[i]) != Join(cos.remotePath, last)
      {
        if Join(cos.remotePath, init[i]) == Join(cos.remotePath, last) {
          JoinInjective(cos.remotePath, init[i], last);
        }
      }
    }
  }

  /** After the deletes, none of the deleted keys remains. */
  lemma {:induction false} DeletesRemoved(objects: map<string, string>, cos: Config, files: seq<string>)
    ensures forall f :: f in files ==> Join(cos.remotePath, f) !in ApplyAll(objects, DeleteRequests(cos, files))
  {
    if files != [] {
      var init := files[..|files| - 1];
      DeletesRemoved(objects, cos, init);
      assert DeleteRequests(cos, files)[..|files| - 1] == DeleteRequests(cos, init);
      assert forall f :: f in files ==> f in init || f == files[|files| - 1];
    }
  }
}
