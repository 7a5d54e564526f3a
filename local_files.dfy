/** The local index: a depth-first walk over the local tree, fingerprinting every leaf. */
module LocalFiles {
  import opened SyncTypes
  import opened Paths
  import opened Indexes

  /** An entry of the local file system as `lstat` and `opendir` see it. */
  datatype FsNode =
    | File(name: string)                              // anything that is not a directory
    | Directory(name: string, children: seq<FsNode>)  // its entries, in enumeration order
    | Unreadable(name: string)                        // lstat, opendir or the md5 read fails here

  /** The paths `walk(path, fn)` hands to `fn`, in order, or the error that stops it. */
  function Scan(path: string, node: FsNode): Result<seq<string>, Error>
    decreases node
  {
    match node
    case File(_) => Ok([path])
    case Unreadable(_) => Err(IoError(path))
    case Directory(_, cs) => ScanChildren(path, cs)
  }

  /** The walk over the entries `cs` of the directory at `path`, one after the other. */
  function ScanChildren(path: string, cs: seq<FsNode>): Result<seq<string>, Error>
    decreases cs
  {
    if cs == [] then Ok([])
    else
      match ScanChildren(path, cs[..|cs| - 1])
      case Err(e) => Err(e)
      case Ok(init) =>
        var last := cs[|cs| - 1];
        match Scan(Join(path, last.name), last)
        case Err(e) => Err(e)
        case Ok(leaves) => Ok(init + leaves)
  }

  /** The number of readable leaves in a tree, counted independently of the walk. */
  function FileCount(node: FsNode): nat
    decreases node
  {
    match node
    case File(_) => 1
    case Unreadable(_) => 0
    case Directory(_, cs) => FileCountAll(cs)
  }

  function FileCountAll(cs: seq<FsNode>): nat
    decreases cs
  {
    if cs == [] then 0 else FileCountAll(cs[..|cs| - 1]) + FileCount(cs[|cs| - 1])
  }

  /** The key the callback records a leaf under: its path with the root cut off. */
  function LocalKey(root: string): string -> string
  {
    leaf => Relative(leaf, root)
  }

  /** What `collectLocalFiles` resolves to: the index of every leaf, or the first I/O error. */
  function LocalIndex(root: string, tree: FsNode, md5: string -> string): Result<FileIndex, Error>
  {
    match Scan(root, tree)
    case Err(e) => Err(e)
    case Ok(leaves) => Ok(Record(map[], LocalKey(root), md5, leaves))
  }

  /** The `files` object that the walk's callback fills in place. */
  class Collector {
    const root: string
    const md5: string -> string
    var files: FileIndex

    constructor (root: string, md5: string -> string)
      ensures this.root == root && this.md5 == md5 && files == map[]
    {
      this.root := root;
      this.md5 := md5;
      files := map[];
    }

    /** The callback: strip the root off `path`, fingerprint the file, record it under the stripped path. */
    method Visit(path: string)
      modifies this
      ensures files == Record(old(files), LocalKey(root), md5, [path])
    {
      var p := StripRoot(path, root);
      var hash := md5(path);
      files := files[p := hash];
      assert [path][..0] == [];
    }
  }

  /** `walk`: a leaf goes to the callback; a directory is walked entry by entry. */
  method Walk(path: string, node: FsNode, c: Collector) returns (r: Outcome<Error>)
    modifies c
    ensures Scan(path, node).Ok? ==> r == Pass && c.files == Record(old(c.files), LocalKey(c.root), c.md5, Scan(path, node).value)
    ensures Scan(path, node).Err? ==> r == Fail(Scan(path, node).error)
    decreases node, 2
  {
    match node {
      case Unreadable(_) =>
        return Fail(IoError(path));
      case File(_) =>
        c.Visit(path);
        return Pass;
      case Directory(_, cs) =>
        r := WalkEntries(path, cs, c);
    }
  }

  /** The `for await` loop of `walk` over the entries `cs` of the directory at `path`. */
  method WalkEntries(path: string, cs: seq<FsNode>, c: Collector) returns (r: Outcome<Error>)
    modifies c
    ensures ScanChildren(path, cs).Ok? ==> r == Pass && c.files == Record(old(c.files), LocalKey(c.root), c.md5, ScanChildren(path, cs).value)
    ensures ScanChildren(path, cs).Err? ==> r == Fail(ScanChildren(path, cs).error)
    decreases cs, 1
  {
    var i := 0;
    while i < |cs|
      invariant 0 <= i <= |cs|
      invariant ScanChildren(path, cs[..i]).Ok?
      invariant c.files == Record(old(c.files), LocalKey(c.root), c.md5, ScanChildren(path, cs[..i]).value)
    {
      ghost var before := c.files;
      r := WalkEntry(path, cs, i, c);
      ScanChildrenStep(path, cs, i);
      if r.Pass? {
        RecordConcat(old(c.files), LocalKey(c.root), c.md5, ScanChildren(path, cs[..i]).value,
                     Scan(Join(path, cs[i].name), cs[i]).value);
      }
      if r.Fail? {
        ScanChildrenErrorStops(path, cs, i + 1);
        return;
      }
      i := i + 1;
    }
    assert cs[..|cs|] == cs;
    return Pass;
  }

  /** One turn of that loop: walk entry `i`. */
  method WalkEntry(path: string, cs: seq<FsNode>, i: nat, c: Collector) returns (r: Outcome<Error>)
    requires i < |cs| && ScanChildren(path, cs[..i]).Ok?
    modifies c
    ensures ScanChildren(path, cs[..i + 1]).Ok? ==>
              r == Pass && c.files == Record(old(c.files), LocalKey(c.root), c.md5, Scan(Join(path, cs[i].name), cs[i]).value)
    ensures ScanChildren(path, cs[..i + 1]).Err? ==> r == Fail(ScanChildren(path, cs[..i + 1]).error)
    decreases cs, 0
  {
    var child := cs[i];
    ScanChildrenStep(path, cs, i);
    r := Walk(Join(path, child.name), child, c);
  }

  /** One more entry: the walk over `cs[..i + 1]` is the walk over `cs[..i]` followed by entry `i`. */
  lemma ScanChildrenStep(path: string, cs: seq<FsNode>, i: nat)
    requires i < |cs| && ScanChildren(path, cs[..i]).Ok?
    ensures Scan(Join(path, cs[i].name), cs[i]).Err? ==>
              ScanChildren(path, cs[..i + 1]) == Err(Scan(Join(path, cs[i].name), cs[i]).error)
    ensures Scan(Join(path, cs[i].name), cs[i]).Ok? ==>
              ScanChildren(path, cs[..i + 1]) ==
                Ok(ScanChildren(path, cs[..i]).value + Scan(Join(path, cs[i].name), cs[i]).value)
  {
    assert cs[..i + 1][..i] == cs[..i];
  }

  /** Once the walk over the first `i` entries fails, the walk over all of them fails the same way. */
  lemma {:induction false} ScanChildrenErrorStops(path: string, cs: seq<FsNode>, i: nat)
    requires i <= |cs|
    requires ScanChildren(path, cs[..i]).Err?
    ensures ScanChildren(path, cs) == ScanChildren(path, cs[..i])
    decreases |cs| - i
  {
    if i == |cs| {
      assert cs[..i] == cs;
    } else {
      var init := cs[..|cs| - 1];
      assert init[..i] == cs[..i];
      ScanChildrenErrorStops(path, init, i);
    }
  }

  /** `collectLocalFiles`: walk the tree from `root` and return the filled index. */
  method CollectLocalFiles(root: string, tree: FsNode, md5: string -> string) returns (r: Result<FileIndex, Error>)
    ensures r == LocalIndex(root, tree, md5)
  {
    var c := new Collector(root, md5);
    var w := Walk(root, tree, c);
    if w.Fail? {
      return Err(w.error);
    }
    return Ok(c.files);
  }

  /** A root that is not a directory yields exactly one entry, under the empty key. */
  lemma RootFileIndex(root: string, name: string, md5: string -> string)
    ensures LocalIndex(root, File(name), md5) == Ok(map["" := md5(root)])
  {
    RelativeUnderRoot(root, "");
    assert root + "" == root;
    assert LocalKey(root)(root) == "";
    assert [root][..0] == [];
    assert Record(map[], LocalKey(root), md5, [root]) == map[][LocalKey(root)(root) := md5(root)];
  }

  /** Each readable leaf of the tree is handed to the callback exactly once. */
  lemma {:induction false} ScanVisitsEachFile(path: string, node: FsNode)
    requires Scan(path, node).Ok?
    ensures |Scan(path, node).value| == FileCount(node)
    decreases node
  {
    match node {
      case File(_) =>
      case Unreadable(_) =>
      case Directory(_, cs) => ScanChildrenVisitsEachFile(path, cs);
    }
  }

  lemma {:induction false} ScanChildrenVisitsEachFile(path: string, cs: seq<FsNode>)
    requires ScanChildren(path, cs).Ok?
    ensures |ScanChildren(path, cs).value| == FileCountAll(cs)
    decreases cs
  {
    if cs != [] {
      var last := cs[|cs| - 1];
      ScanChildrenVisitsEachFile(path, cs[..|cs| - 1]);
      ScanVisitsEachFile(Join(path, last.name), last);
    }
  }

  /** The walk fails exactly when the tree holds an unreadable entry. */
  lemma {:induction false} ScanFailsIffUnreadable(path: string, node: FsNode)
    ensures Scan(path, node).Err? <==> HasUnreadable(node)
    decreases node
  {
    match node {
      case File(_) =>
      case Unreadable(_) =>
      case Directory(_, cs) => ScanChildrenFailsIffUnreadable(path, cs);
    }
  }

  lemma {:induction false} ScanChildrenFailsIffUnreadable(path: string, cs: seq<FsNode>)
    ensures ScanChildren(path, cs).Err? <==> HasUnreadableAll(cs)
    decreases cs
  {
    if cs != [] {
      var last := cs[|cs| - 1];
      ScanChildrenFailsIffUnreadable(path, cs[..|cs| - 1]);
      ScanFailsIffUnreadable(Join(path, last.name), last);
    }
  }

  predicate HasUnreadable(node: FsNode)
    decreases node
  {
    match node
    case File(_) => false
    case Unreadable(_) => true
    case Directory(_, cs) => HasUnreadableAll(cs)
  }

  predicate HasUnreadableAll(cs: seq<FsNode>)
    decreases cs
  {
    cs != [] && (HasUnreadableAll(cs[..|cs| - 1]) || HasUnreadable(cs[|cs| - 1]))
  }

  /** The keys of the local index are exactly the stripped leaf paths, none with a leading '/'. */
  lemma LocalIndexKeys(root: string, tree: FsNode, md5: string -> string)
    requires Scan(root, tree).Ok?
    ensures LocalIndex(root, tree, md5).Ok?
    ensures LocalIndex(root, tree, md5).value.Keys == KeysOf(LocalKey(root), Scan(root, tree).value)
    ensures forall k :: k in LocalIndex(root, tree, md5).value ==> NoLeadingSlash(k)
  {
    var leaves := Scan(root, tree).value;
    RecordKeys(map[], LocalKey(root), md5, leaves);
    forall k | k in LocalIndex(root, tree, md5).value ensures NoLeadingSlash(k) {
      var l :| l in leaves && LocalKey(root)(l) == k;
      RelativeShape(l, root);
    }
  }

  /** On a key collision the later leaf wins: a key holds the md5 of the last leaf stripped to it. */
  lemma LocalIndexLastWins(root: string, tree: FsNode, md5: string -> string, i: nat)
    requires Scan(root, tree).Ok?
    requires i < |Scan(root, tree).value|
    requires forall j :: i < j < |Scan(root, tree).value| ==>
               Relative(Scan(root, tree).value[j], root) != Relative(Scan(root, tree).value[i], root)
    ensures LocalIndex(root, tree, md5).Ok?
    ensures var leaf := Scan(root, tree).value[i];
            && Relative(leaf, root) in LocalIndex(root, tree, md5).value
            && LocalIndex(root, tree, md5).value[Relative(leaf, root)] == md5(leaf)
  {
    var leaves := Scan(root, tree).value;
    RecordLastWins(map[], LocalKey(root), md5, leaves, i);
  }
}
