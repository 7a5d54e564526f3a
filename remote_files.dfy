/** The remote index: a paginated listing of the objects under the remote prefix. */
module RemoteFiles {
  import opened SyncTypes
  import opened Paths
  import opened Indexes

  /** The `IsTruncated` field of a listing page as it arrives; only the boolean `true` asks for another page. */
  datatype Flag = Bool(b: bool) | Text(s: string) | Missing

  datatype ObjectEntry = ObjectEntry(key: string, etag: string)

  datatype Page = Page(contents: seq<ObjectEntry>, isTruncated: Flag, nextMarker: Option<string>)

  /** `data.IsTruncated === true`: the reply is a page whose flag is exactly the boolean true. */
  predicate Continues(reply: Option<Page>)
  {
    reply.Some? && reply.value.isTruncated == Bool(true)
  }

  /** The replies `rs` (the i-th one answers the i-th listing call, None when that call fails)
      end the loop: some reply does not ask for a further page. */
  predicate Ends(rs: seq<Option<Page>>)
  {
    |rs| > 0 && (!Continues(rs[0]) || Ends(rs[1..]))
  }

  /** The index of the last reply the loop consumes: the first one that does not continue. */
  function StopIndex(rs: seq<Option<Page>>): (n: nat)
    requires Ends(rs)
    ensures n < |rs| && !Continues(rs[n])
    ensures forall k :: 0 <= k < n ==> Continues(rs[k])
  {
    if !Continues(rs[0]) then 0 else 1 + StopIndex(rs[1..])
  }

  /** The marker sent with the k-th listing call: none first, then the previous page's `NextMarker`. */
  function Marker(rs: seq<Option<Page>>, k: nat): Option<string>
  {
    if k == 0 || k > |rs| || rs[k - 1].None? then None else rs[k - 1].value.nextMarker
  }

  /** The markers of the first `i` listing calls. */
  function Markers(rs: seq<Option<Page>>, i: nat): seq<Option<string>>
  {
    if i == 0 then [] else Markers(rs, i - 1) + [Marker(rs, i - 1)]
  }

  /** There is one marker per call, and the k-th is the one call k sends. */
  lemma {:induction false} MarkersAt(rs: seq<Option<Page>>, i: nat)
    ensures |Markers(rs, i)| == i
    ensures forall k :: 0 <= k < i ==> Markers(rs, i)[k] == Marker(rs, k)
  {
    if i > 0 {
      MarkersAt(rs, i - 1);
    }
  }

  /** The objects of the consumed replies, page after page. */
  function Entries(rs: seq<Option<Page>>): seq<ObjectEntry>
  {
    if rs == [] then []
    else
      Entries(rs[..|rs| - 1]) + Objects(rs[|rs| - 1])
  }

  /** The objects of one reply; a failed call contributes none. */
  function Objects(reply: Option<Page>): seq<ObjectEntry>
  {
    match reply
    case None => []
    case Some(p) => p.contents
  }

  /** The key the loop records an object under: its key with the remote prefix cut off. */
  function RemoteKey(prefix: string): ObjectEntry -> string
  {
    (e: ObjectEntry) => Relative(e.key, prefix)
  }

  /** The fingerprint the loop records for an object: its ETag. */
  const ETag: ObjectEntry -> string := (e: ObjectEntry) => e.etag

  /** What `collectRemoteFiles` resolves to: the index built from every consumed page, or the error
      of the first listing call that fails. */
  function RemoteListing(prefix: string, rs: seq<Option<Page>>): Result<FileIndex, Error>
    requires Ends(rs)
  {
    var n := StopIndex(rs);
    if rs[n].None? then Err(ListError(Marker(rs, n)))
    else Ok(Listed(prefix, rs, n + 1))
  }

  /** The index after the first `i` replies, built page by page as the loop builds it. */
  function Listed(prefix: string, rs: seq<Option<Page>>, i: nat): FileIndex
    requires i <= |rs|
  {
    if i == 0 then map[] else Record(Listed(prefix, rs, i - 1), RemoteKey(prefix), ETag, Objects(rs[i - 1]))
  }

  /** Recording page by page is recording all the objects of those pages at once, in order. */
  lemma {:induction false} ListedIsRecord(prefix: string, rs: seq<Option<Page>>, i: nat)
    requires i <= |rs|
    ensures Listed(prefix, rs, i) == Record(map[], RemoteKey(prefix), ETag, Entries(rs[..i]))
  {
    if i > 0 {
      ListedIsRecord(prefix, rs, i - 1);
      assert rs[..i][..i - 1] == rs[..i - 1];
      RecordConcat(map[], RemoteKey(prefix), ETag, Entries(rs[..i - 1]), Objects(rs[i - 1]));
    }
  }

  /** The inner loop of `collectRemoteFiles`: record every object of one page, in order. */
  method RecordPage(prefix: string, files: FileIndex, contents: seq<ObjectEntry>) returns (out: FileIndex)
    ensures out == Record(files, RemoteKey(prefix), ETag, contents)
  {
    out := files;
    var j := 0;
    while j < |contents|
      invariant 0 <= j <= |contents|
      invariant out == Record(files, RemoteKey(prefix), ETag, contents[..j])
    {
      var e := contents[j];
      var p := StripRoot(e.key, prefix);
      assert contents[..j + 1][..j] == contents[..j];
      out := out[p := e.etag];
      j := j + 1;
    }
    assert contents[..j] == contents;
  }

  /** One page of the listing loop: record the objects of page `i` on top of those of the pages before it. */
  method ListPage(prefix: string, rs: seq<Option<Page>>, i: nat, files: FileIndex) returns (out: FileIndex)
    requires i < |rs| && rs[i].Some? && files == Listed(prefix, rs, i)
    ensures out == Listed(prefix, rs, i + 1)
  {
    out := RecordPage(prefix, files, rs[i].value.contents);
  }

  /** `collectRemoteFiles`: list page after page while the previous page was truncated. */
  method CollectRemoteFiles(prefix: string, rs: seq<Option<Page>>)
    returns (r: Result<FileIndex, Error>, requested: seq<Option<string>>)
    requires Ends(rs)
    ensures r == RemoteListing(prefix, rs)
    ensures |requested| == StopIndex(rs) + 1
    ensures forall k :: 0 <= k < |requested| ==> requested[k] == Marker(rs, k)
  {
    ghost var n := StopIndex(rs);
    var files: FileIndex := map[];
    var marker: Option<string> := None;
    var i := 0;
    var more := true;
    requested := [];
    while more
      invariant i <= n + 1
      invariant more <==> i <= n
      invariant 0 < i ==> rs[i - 1].Some?
      invariant marker == Marker(rs, i)
      invariant requested == Markers(rs, i)
      invariant files == Listed(prefix, rs, i)
      decreases n + 1 - i
    {
      requested := requested + [marker];
      var reply := rs[i];
      if reply.None? {
        assert i == n;
        MarkersAt(rs, i + 1);
        return Err(ListError(marker)), requested;
      }
      var data := reply.value;
      files := ListPage(prefix, rs, i, files);
      marker := data.nextMarker;
      more := data.isTruncated == Bool(true);
      assert more <==> Continues(rs[i]);
      i := i + 1;
    }
    MarkersAt(rs, i);
    r := Ok(files);
  }

  /** A page whose flag is the text "true" rather than the boolean ends the listing. */
  lemma TextFlagEndsListing(rs: seq<Option<Page>>)
    requires |rs| > 0 && rs[0].Some? && rs[0].value.isTruncated == Text("true")
    ensures Ends(rs) && StopIndex(rs) == 0
  {
  }

  /** A successful listing is the index of all the consumed objects, recorded in order. */
  lemma ListingIsRecord(prefix: string, rs: seq<Option<Page>>)
    requires Ends(rs) && RemoteListing(prefix, rs).Ok?
    ensures RemoteListing(prefix, rs).value == Record(map[], RemoteKey(prefix), ETag, Entries(rs[..StopIndex(rs) + 1]))
  {
    ListedIsRecord(prefix, rs, StopIndex(rs) + 1);
  }

  /** The keys of the remote index are exactly the stripped keys of the consumed objects. */
  lemma RemoteIndexKeys(prefix: string, rs: seq<Option<Page>>)
    requires Ends(rs) && RemoteListing(prefix, rs).Ok?
    ensures var es := Entries(rs[..StopIndex(rs) + 1]);
            RemoteListing(prefix, rs).value.Keys == KeysOf(RemoteKey(prefix), es)
    ensures forall k :: k in RemoteListing(prefix, rs).value ==> NoLeadingSlash(k)
  {
    ListingIsRecord(prefix, rs);
    RecordedRemoteKeys(prefix, Entries(rs[..StopIndex(rs) + 1]));
  }

  lemma RecordedRemoteKeys(prefix: string, es: seq<ObjectEntry>)
    ensures Record(map[], RemoteKey(prefix), ETag, es).Keys == KeysOf(RemoteKey(prefix), es)
    ensures forall k :: k in Record(map[], RemoteKey(prefix), ETag, es) ==> NoLeadingSlash(k)
  {
    var idx := Record(map[], RemoteKey(prefix), ETag, es);
    RecordKeys(map[], RemoteKey(prefix), ETag, es);
    forall k | k in idx ensures NoLeadingSlash(k) {
      var e :| e in es && RemoteKey(prefix)(e) == k;
      RelativeShape(e.key, prefix);
    }
  }

  /** On a duplicate stripped key the later object wins. */
  lemma RemoteIndexLastWins(prefix: string, rs: seq<Option<Page>>, i: nat)
    requires Ends(rs) && RemoteListing(prefix, rs).Ok?
    requires i < |Entries(rs[..StopIndex(rs) + 1])|
    requires var es := Entries(rs[..StopIndex(rs) + 1]);
             forall j :: i < j < |es| ==> Relative(es[j].key, prefix) != Relative(es[i].key, prefix)
    ensures var e := Entries(rs[..StopIndex(rs) + 1])[i];
            && Relative(e.key, prefix) in RemoteListing(prefix, rs).value
            && RemoteListing(prefix, rs).value[Relative(e.key, prefix)] == e.etag
  {
    ListingIsRecord(prefix, rs);
    RecordedRemoteLastWins(prefix, Entries(rs[..StopIndex(rs) + 1]), i);
  }

  lemma RecordedRemoteLastWins(prefix: string, es: seq<ObjectEntry>, i: nat)
    requires i < |es|
    requires forall j :: i < j < |es| ==> Relative(es[j].key, prefix) != Relative(es[i].key, prefix)
    ensures Relative(es[i].key, prefix) in Record(map[], RemoteKey(prefix), ETag, es)
    ensures Record(map[], RemoteKey(prefix), ETag, es)[Relative(es[i].key, prefix)] == es[i].etag
  {
    assert forall j :: i < j < |es| ==> RemoteKey(prefix)(es[j]) != RemoteKey(prefix)(es[i]);
    RecordLastWins(map[], RemoteKey(prefix), ETag, es, i);
  }

  /** The objects a listing collects are those of the pages up to and including the stopping one. */
  lemma EntriesOfPages(rs: seq<Option<Page>>, e: ObjectEntry)
    ensures e in Entries(rs) <==> exists k :: 0 <= k < |rs| && rs[k].Some? && e in rs[k].value.contents
  {
    if e in Entries(rs) {
      var k := PageOfEntry(rs, e);
    }
    if exists k :: 0 <= k < |rs| && rs[k].Some? && e in rs[k].value.contents {
      var k :| 0 <= k < |rs| && rs[k].Some? && e in rs[k].value.contents;
      EntryOfPage(rs, k, e);
    }
  }

  /** Every object of a listed page is among the collected objects. */
  lemma {:induction false} EntryOfPage(rs: seq<Option<Page>>, k: nat, e: ObjectEntry)
    requires k < |rs| && rs[k].Some? && e in rs[k].value.contents
    ensures e in Entries(rs)
  {
    var init := rs[..|rs| - 1];
    if k < |init| {
      assert init[k] == rs[k];
      EntryOfPage(init, k, e);
    }
  }

  /** Every collected object comes from some listed page. */
  lemma {:induction false} PageOfEntry(rs: seq<Option<Page>>, e: ObjectEntry) returns (k: nat)
    requires e in Entries(rs)
    ensures k < |rs| && rs[k].Some? && e in rs[k].value.contents
  {
    var init := rs[..|rs| - 1];
    if e in Entries(init) {
      k := PageOfEntry(init, e);
      assert init[k] == rs[k];
    } else {
      k := |rs| - 1;
    }
  }
}
