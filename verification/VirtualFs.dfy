/**
 The sandbox's in-memory filesystem (crates/sandbox-guard/src/wasi_virt.rs, VirtualFileSystem).

 Guest paths are normalised with a stack and stored under a textual key. The first half proves what the
 keys mean; the second half proves the filesystem object against a plain map from resolved segment lists
 to files, with its byte budget and its file limit. Each operation is one atomic step.
 */
module VirtualFs {
  import opened Basics

  newtype Byte = b: int | 0 <= b < 256

  // ----- Splitting and joining ------------------------------------------------------------------------

  function Split(s: string): (segs: seq<string>)
    ensures segs != []
  {
    if s == "" then [""]
    else if s[0] == '/' then [""] + Split(s[1..])
    else var segs := Split(s[1..]); [[s[0]] + segs[0]] + segs[1..]
  }

  function Join(segs: seq<string>): string {
    if segs == [] then "" else if |segs| == 1 then segs[0] else segs[0] + "/" + Join(segs[1..])
  }

  predicate SlashFree(s: string) { '/' !in s }

  lemma {:induction false} SplitSlashFree(s: string)
    ensures forall k :: 0 <= k < |Split(s)| ==> SlashFree(Split(s)[k])
  {
    if s != "" { SplitSlashFree(s[1..]); }
  }

  lemma {:induction false} SplitPlain(s: string)
    requires SlashFree(s)
    ensures Split(s) == [s]
  {
    if s != "" {
      SplitPlain(s[1..]);
      assert [s[0]] + s[1..] == s;
    }
  }

  lemma {:induction false} SplitConcat(a: string, b: string)
    ensures Split(a + "/" + b) == Split(a) + Split(b)
  {
    var s := a + "/" + b;
    if a == "" {
      assert s[1..] == b;
    } else {
      assert s[1..] == a[1..] + "/" + b;
      SplitConcat(a[1..], b);
    }
  }

  lemma {:induction false} SplitJoin(segs: seq<string>)
    requires segs != [] && forall k :: 0 <= k < |segs| ==> SlashFree(segs[k])
    ensures Split(Join(segs)) == segs
    decreases |segs|
  {
    SplitPlain(segs[0]);
    if |segs| > 1 {
      SplitConcat(segs[0], Join(segs[1..]));
      SplitJoin(segs[1..]);
    }
  }

  // ----- Resolving ---------------------------------------------------------------------------------------

  predicate IsName(seg: string) { seg != "" && seg != "." && seg != ".." && SlashFree(seg) }

  predicate Clean(segs: seq<string>) { forall k :: 0 <= k < |segs| ==> IsName(segs[k]) }

  /** Walk from the directory `at`: names descend, ".." climbs, and the root is its own parent. */
  function Walk(at: seq<string>, segs: seq<string>): seq<string>
    decreases |segs|
  {
    if segs == [] then at
    else Walk(Enter(at, segs[0]), segs[1..])
  }

  function Enter(at: seq<string>, seg: string): seq<string> {
    if seg == "" || seg == "." then at
    else if seg == ".." then if at == [] then [] else at[..|at| - 1]
    else at + [seg]
  }

  /** What a guest path means: the segments from the root of the sandbox. */
  function Resolve(path: string): seq<string> { Walk([], Split(path)) }

  lemma {:induction false} WalkClean(at: seq<string>, segs: seq<string>)
    requires Clean(at) && forall k :: 0 <= k < |segs| ==> SlashFree(segs[k])
    ensures Clean(Walk(at, segs))
    decreases |segs|
  {
    if segs != [] { WalkClean(Enter(at, segs[0]), segs[1..]); }
  }

  /** Resolved lists never hold "", "." or "..". */
  lemma ResolveClean(path: string)
    ensures Clean(Resolve(path))
  {
    SplitSlashFree(path);
    WalkClean([], Split(path));
  }

  lemma {:induction false} WalkConcat(at: seq<string>, x: seq<string>, y: seq<string>)
    ensures Walk(at, x + y) == Walk(Walk(at, x), y)
    decreases |x|
  {
    if x == [] {
      assert x + y == y;
    } else {
      assert (x + y)[1..] == x[1..] + y;
      WalkConcat(Enter(at, x[0]), x[1..], y);
    }
  }

  lemma {:induction false} WalkNames(at: seq<string>, segs: seq<string>)
    requires Clean(segs)
    ensures Walk(at, segs) == at + segs
    decreases |segs|
  {
    if segs != [] {
      WalkNames(at + [segs[0]], segs[1..]);
      assert at + [segs[0]] + segs[1..] == at + segs;
    }
  }

  /** A resolved list, written as a path, resolves to itself. */
  lemma ResolveJoin(segs: seq<string>)
    requires Clean(segs)
    ensures Resolve(Join(segs)) == segs
  {
    if segs == [] {
      assert Split("") == [""] && [""][1..] == [];
    } else {
      SplitJoin(segs);
      WalkNames([], segs);
      assert [] + segs == segs;
    }
  }

  /** Entering a directory and leaving it again does not change where a path leads. */
  lemma ParentCancels(p: string, name: string, q: string)
    requires IsName(name)
    ensures Resolve(p + "/" + (name + "/" + (".." + "/" + q))) == Resolve(p + "/" + q)
  {
    var up := ".." + "/" + q;
    SplitConcat("..", q);
    SplitConcat(name, up);
    SplitConcat(p, name + "/" + up);
    SplitConcat(p, q);
    SplitPlain(name);
    SplitPlain("..");
    var at := Walk([], Split(p));
    WalkConcat([], Split(p), Split(name + "/" + up));
    WalkConcat([], Split(p), Split(q));
    WalkConcat(at, [name], [".."] + Split(q));
    WalkConcat(at + [name], [".."], Split(q));
    assert [name][1..] == [] && [".."][1..] == [];
    assert Walk(at, [name]) == at + [name];
    assert Walk(at + [name], [".."]) == at;
  }

  // ----- Keys ----------------------------------------------------------------------------------------------

  function TrimSlashes(path: string): string {
    if path != "" && path[0] == '/' then TrimSlashes(path[1..]) else path
  }

  /** The text under which a resolved list is stored. */
  function Key(mount: string, segs: seq<string>): string { mount + "/" + Join(segs) }

  /** Reading a key back. */
  function Unkey(mount: string, key: string): seq<string>
    requires |key| > |mount|
  {
    Resolve(key[|mount| + 1..])
  }

  lemma {:induction false} TrimInvisible(path: string)
    ensures Resolve(TrimSlashes(path)) == Resolve(path)
  {
    if path != "" && path[0] == '/' {
      TrimInvisible(path[1..]);
      assert Split(path) == [""] + Split(path[1..]);
    }
  }

  lemma UnkeyKey(mount: string, segs: seq<string>)
    requires Clean(segs)
    ensures Unkey(mount, Key(mount, segs)) == segs
  {
    assert Key(mount, segs)[|mount| + 1..] == Join(segs);
    ResolveJoin(segs);
  }

  method NormalizePathSegments(path: string) returns (normalized: string)
    ensures normalized == Join(Resolve(path))
  {
    var segments := Split(path);
    var stack: seq<string> := [];
    for i := 0 to |segments|
      invariant Walk(stack, segments[i..]) == Resolve(path)
    {
      assert segments[i..][1..] == segments[i + 1..];
      if segments[i] == "" || segments[i] == "." {
      } else if segments[i] == ".." {
        if stack != [] { stack := stack[..|stack| - 1]; }
      } else {
        stack := stack + [segments[i]];
      }
    }
    normalized := Join(stack);
  }

  method RedirectPath(mount: string, guest: string) returns (key: string)
    ensures key == Key(mount, Resolve(guest))
  {
    var stripped := TrimSlashes(guest);
    var normalized := NormalizePathSegments(stripped);
    TrimInvisible(guest);
    key := mount + "/" + normalized;
  }

  /** Two guest paths name one file exactly when they resolve to the same segments. */
  lemma SameKeyIffSameFile(mount: string, p: string, q: string)
    ensures Key(mount, Resolve(p)) == Key(mount, Resolve(q)) <==> Resolve(p) == Resolve(q)
  {
    ResolveClean(p);
    ResolveClean(q);
    UnkeyKey(mount, Resolve(p));
    UnkeyKey(mount, Resolve(q));
  }

  /** Every key lies under the mount point, and nothing after it climbs out again. */
  lemma Confined(mount: string, guest: string)
    ensures var rest := Join(Resolve(guest));
            Key(mount, Resolve(guest)) == mount + "/" + rest && (rest == "" || Clean(Split(rest)))
  {
    var segs := Resolve(guest);
    ResolveClean(guest);
    if segs != [] { SplitJoin(segs); }
  }

  // ----- The filesystem as a map of resolved lists ------------------------------------------------------------

  datatype Node = Node(content: seq<Byte>, createdAt: nat, modifiedAt: nat)

  datatype VirtualFile = VirtualFile(path: string, content: seq<Byte>, createdAt: nat, modifiedAt: nat, size: nat)

  datatype Result<T> =
    | Ok(value: T)
    | BudgetExceeded(requested: nat, available: nat)
    | InodeExhausted(current: nat, maximum: nat)
    | FileNotFound(path: string)

  type Tree = map<seq<string>, Node>

  /** The bytes held by all files together. */
  ghost function Total(tree: Tree): nat {
    if tree == map[] then 0 else
      var segs :| segs in tree;
      |tree[segs].content| + Total(tree - {segs})
  }

  lemma {:induction false} TotalWithout(tree: Tree, segs: seq<string>)
    requires segs in tree
    ensures Total(tree) == |tree[segs].content| + Total(tree - {segs})
    decreases |tree|
  {
    var other :| other in tree && Total(tree) == |tree[other].content| + Total(tree - {other});
    if other != segs {
      var less := tree - {other};
      assert less.Keys == tree.Keys - {other};
      TotalWithout(less, segs);
      var rest := tree - {segs};
      assert rest.Keys == tree.Keys - {segs};
      TotalWithout(rest, other);
      assert less - {segs} == rest - {other};
    }
  }

  function SizeOf(tree: Tree, segs: seq<string>): nat { if segs in tree then |tree[segs].content| else 0 }

  lemma TotalUpdate(tree: Tree, segs: seq<string>, node: Node)
    ensures SizeOf(tree, segs) <= Total(tree)
    ensures Total(tree[segs := node]) == Total(tree) - SizeOf(tree, segs) + |node.content|
  {
    var tree' := tree[segs := node];
    TotalWithout(tree', segs);
    if segs in tree {
      TotalWithout(tree, segs);
      assert tree' - {segs} == tree - {segs};
    } else {
      assert tree' - {segs} == tree;
    }
  }

  function SatSub(a: nat, b: nat): nat { if a < b then 0 else a - b }

  /** The verdict on a write of `size` bytes. */
  ghost function WriteVerdict(tree: Tree, maxBytes: nat, maxFiles: nat, segs: seq<string>, size: nat): Result<()> {
    if size > maxBytes then BudgetExceeded(size, SatSub(maxBytes, Total(tree)))
    else if segs !in tree && |tree| >= maxFiles then InodeExhausted(|tree|, maxFiles)
    else if Total(tree) - SizeOf(tree, segs) + size > maxBytes then BudgetExceeded(size, SatSub(maxBytes, Total(tree)))
    else Ok(())
  }

  function Written(tree: Tree, segs: seq<string>, data: seq<Byte>, now: nat): Node {
    Node(data, if segs in tree then tree[segs].createdAt else now, now)
  }

  ghost predicate FitsIn(tree: Tree, maxBytes: nat, maxFiles: nat) { Total(tree) <= maxBytes && |tree| <= maxFiles }

  lemma UpdateCount(tree: Tree, segs: seq<string>, node: Node)
    ensures |tree[segs := node]| == |tree| + if segs in tree then 0 else 1
  {
    assert tree[segs := node].Keys == tree.Keys + {segs};
    if segs in tree { assert tree.Keys + {segs} == tree.Keys; }
  }

  /** A write succeeds exactly when the filesystem it leads to keeps within both limits. */
  lemma WriteSucceedsIff(tree: Tree, maxBytes: nat, maxFiles: nat, segs: seq<string>, node: Node)
    requires FitsIn(tree, maxBytes, maxFiles)
    ensures WriteVerdict(tree, maxBytes, maxFiles, segs, |node.content|).Ok? <==> FitsIn(tree[segs := node], maxBytes, maxFiles)
    ensures match WriteVerdict(tree, maxBytes, maxFiles, segs, |node.content|)
            case Ok(_) => true
            case BudgetExceeded(requested, available) =>
              requested == |node.content| && available + Total(tree) == maxBytes && Total(tree[segs := node]) > maxBytes
            case InodeExhausted(current, maximum) => current == |tree| && maximum == maxFiles && |tree[segs := node]| > maxFiles
            case FileNotFound(_) => false
  {
    TotalUpdate(tree, segs, node);
    UpdateCount(tree, segs, node);
  }

  /** Overwriting a file with no more bytes than it has always succeeds, however full the filesystem is. */
  lemma OverwriteSucceeds(tree: Tree, maxBytes: nat, maxFiles: nat, segs: seq<string>, size: nat)
    requires FitsIn(tree, maxBytes, maxFiles) && segs in tree && size <= |tree[segs].content|
    ensures WriteVerdict(tree, maxBytes, maxFiles, segs, size).Ok?
  {
    TotalWithout(tree, segs);
  }

  predicate Stores(f: VirtualFile, key: string, node: Node) {
    f == VirtualFile(key, node.content, node.createdAt, node.modifiedAt, |node.content|)
  }

  /** The stored files are the tree, key by key. */
  ghost predicate Represents(mount: string, files: map<string, VirtualFile>, tree: Tree) {
    && |files| == |tree|
    && (forall segs {:trigger Kept(mount, files, tree, segs)} :: segs in tree ==> Kept(mount, files, tree, segs))
    && (forall key {:trigger KeyOf(mount, key, tree)} :: key in files ==> KeyOf(mount, key, tree))
  }

  predicate Kept(mount: string, files: map<string, VirtualFile>, tree: Tree, segs: seq<string>)
    requires segs in tree
  {
    Clean(segs) && Holds(files, Key(mount, segs), tree[segs])
  }

  predicate Holds(files: map<string, VirtualFile>, key: string, node: Node) {
    key in files && Stores(files[key], key, node)
  }

  ghost predicate KeyOf(mount: string, key: string, tree: Tree) {
    |key| > |mount| && Unkey(mount, key) in tree && key == Key(mount, Unkey(mount, key))
  }

  /** A clean list is stored under its key exactly when it is in the tree. */
  lemma Stored(mount: string, files: map<string, VirtualFile>, tree: Tree, segs: seq<string>, key: string)
    requires Represents(mount, files, tree) && Clean(segs) && key == Key(mount, segs)
    ensures key in files <==> segs in tree
    ensures segs in tree ==> Holds(files, key, tree[segs])
  {
    UnkeyKey(mount, segs);
    if segs in tree { assert Kept(mount, files, tree, segs); }
    if key in files { assert KeyOf(mount, key, tree); }
  }

  lemma DistinctKeys(mount: string, a: seq<string>, b: seq<string>)
    requires Clean(a) && Clean(b) && a != b
    ensures Key(mount, a) != Key(mount, b)
  {
    UnkeyKey(mount, a);
    UnkeyKey(mount, b);
  }

  lemma KeptUpdate(mount: string, files: map<string, VirtualFile>, tree: Tree, segs: seq<string>, key: string,
                   f: VirtualFile, node: Node, other: seq<string>)
    requires Clean(segs) && key == Key(mount, segs) && Stores(f, key, node)
    requires other in tree[segs := node] && (other in tree ==> Kept(mount, files, tree, other))
    ensures Kept(mount, files[key := f], tree[segs := node], other)
  {
    if other != segs { DistinctKeys(mount, other, segs); }
  }

  lemma KeptRemove(mount: string, files: map<string, VirtualFile>, tree: Tree, segs: seq<string>, key: string, other: seq<string>)
    requires Clean(segs) && key == Key(mount, segs)
    requires other in tree && other != segs && Kept(mount, files, tree, other)
    ensures Kept(mount, files - {key}, tree - {segs}, other)
  {
    DistinctKeys(mount, other, segs);
  }

  lemma KeyOfKey(mount: string, tree: Tree, segs: seq<string>)
    requires segs in tree && Clean(segs)
    ensures KeyOf(mount, Key(mount, segs), tree)
  {
    UnkeyKey(mount, segs);
  }

  lemma RepresentsUpdate(mount: string, files: map<string, VirtualFile>, tree: Tree, segs: seq<string>, key: string,
                         f: VirtualFile, node: Node)
    requires Represents(mount, files, tree) && Clean(segs) && key == Key(mount, segs) && Stores(f, key, node)
    ensures Represents(mount, files[key := f], tree[segs := node])
    ensures |tree[segs := node]| == |tree| + if segs in tree then 0 else 1
  {
    var files', tree' := files[key := f], tree[segs := node];
    Stored(mount, files, tree, segs, key);
    forall other | other in tree' ensures Kept(mount, files', tree', other) {
      assert other in tree ==> Kept(mount, files, tree, other);
      KeptUpdate(mount, files, tree, segs, key, f, node, other);
    }
    forall k | k in files' ensures KeyOf(mount, k, tree') {
      if k == key { KeyOfKey(mount, tree', segs); } else { assert KeyOf(mount, k, tree); }
    }
  }

  lemma RepresentsRemove(mount: string, files: map<string, VirtualFile>, tree: Tree, segs: seq<string>, key: string)
    requires Represents(mount, files, tree) && segs in tree && Clean(segs) && key == Key(mount, segs)
    ensures Represents(mount, files - {key}, tree - {segs})
    ensures |tree - {segs}| == |tree| - 1
  {
    var files', tree' := files - {key}, tree - {segs};
    Stored(mount, files, tree, segs, key);
    forall other | other in tree' ensures Kept(mount, files', tree', other) {
      assert Kept(mount, files, tree, other);
      KeptRemove(mount, files, tree, segs, key, other);
    }
    forall k | k in files' ensures KeyOf(mount, k, tree') {
      assert KeyOf(mount, k, tree);
    }
  }

  class VirtualFileSystem {
    const mountPoint: string
    const maxTotalBytes: nat
    const maxFileCount: nat
    var files: map<string, VirtualFile>
    var totalBytesUsed: nat
    var writeCount: nat
    var readCount: nat
    ghost var tree: Tree

    ghost predicate Valid()
      reads this
    {
      && Represents(mountPoint, files, tree)
      && totalBytesUsed == Total(tree) <= maxTotalBytes
      && |tree| <= maxFileCount
    }

    constructor (mount: string, maxBytes: nat, maxFiles: nat)
      ensures Valid() && tree == map[] && mountPoint == mount && maxTotalBytes == maxBytes
      ensures maxFileCount == if maxFiles < 1 then 1 else maxFiles
    {
      mountPoint, maxTotalBytes, maxFileCount := mount, maxBytes, if maxFiles < 1 then 1 else maxFiles;
      files, totalBytesUsed, writeCount, readCount, tree := map[], 0, 0, 0, map[];
    }

    method WriteFile(guest: string, data: seq<Byte>, now: nat) returns (r: Result<()>)
      requires Valid()
      modifies this
      ensures Valid() && r == WriteVerdict(old(tree), maxTotalBytes, maxFileCount, Resolve(guest), |data|)
      ensures r.Ok? ==> tree == old(tree)[Resolve(guest) := Written(old(tree), Resolve(guest), data, now)]
      ensures !r.Ok? ==> tree == old(tree) && files == old(files)
      ensures writeCount == (if r.Ok? then (old(writeCount) + 1) % U64 else old(writeCount)) && readCount == old(readCount)
    {
      var key := RedirectPath(mountPoint, guest);
      ResolveClean(guest);
      r := WriteAt(key, Resolve(guest), data, now);
    }

    /** The write once the path is resolved to `segs`, stored under `key`. */
    method WriteAt(key: string, ghost segs: seq<string>, data: seq<Byte>, now: nat) returns (r: Result<()>)
      requires Valid() && Clean(segs) && key == Key(mountPoint, segs)
      modifies this
      ensures Valid() && r == WriteVerdict(old(tree), maxTotalBytes, maxFileCount, segs, |data|)
      ensures r.Ok? ==> tree == old(tree)[segs := Written(old(tree), segs, data, now)]
      ensures !r.Ok? ==> tree == old(tree) && files == old(files)
      ensures writeCount == (if r.Ok? then (old(writeCount) + 1) % U64 else old(writeCount)) && readCount == old(readCount)
    {
      Stored(mountPoint, files, tree, segs, key);
      if |data| > maxTotalBytes { return BudgetExceeded(|data|, SatSub(maxTotalBytes, totalBytesUsed)); }
      if key !in files && |files| >= maxFileCount { return InodeExhausted(|files|, maxFileCount); }
      var existing := if key in files then files[key].size else 0;
      var proposed := SatSub(totalBytesUsed, existing) + |data|;
      ghost var node := Written(tree, segs, data, now);
      TotalUpdate(tree, segs, node);
      if proposed > maxTotalBytes { return BudgetExceeded(|data|, SatSub(maxTotalBytes, totalBytesUsed)); }
      totalBytesUsed := proposed;
      var createdAt := if key in files then files[key].createdAt else now;
      var file := VirtualFile(key, data, createdAt, now, |data|);
      RepresentsUpdate(mountPoint, files, tree, segs, key, file, node);
      files := files[key := file];
      tree := tree[segs := node];
      writeCount := (writeCount + 1) % U64;
      return Ok(());
    }

    method ReadFile(guest: string) returns (r: Result<seq<Byte>>)
      requires Valid()
      modifies this`readCount
      ensures Valid() && tree == old(tree)
      ensures r == if Resolve(guest) in tree then Ok(tree[Resolve(guest)].content) else FileNotFound(guest)
      ensures readCount == if r.Ok? then (old(readCount) + 1) % U64 else old(readCount)
    {
      var key := RedirectPath(mountPoint, guest);
      ResolveClean(guest);
      Stored(mountPoint, files, tree, Resolve(guest), key);
      if key !in files { return FileNotFound(guest); }
      readCount := (readCount + 1) % U64;
      return Ok(files[key].content);
    }

    method DeleteFile(guest: string) returns (r: Result<()>)
      requires Valid()
      modifies this
      ensures Valid() && r == if Resolve(guest) in old(tree) then Ok(()) else FileNotFound(guest)
      ensures tree == old(tree) - {Resolve(guest)}
      ensures !r.Ok? ==> files == old(files)
      ensures writeCount == old(writeCount) && readCount == old(readCount)
    {
      var key := RedirectPath(mountPoint, guest);
      ghost var segs := Resolve(guest);
      ResolveClean(guest);
      Stored(mountPoint, files, tree, segs, key);
      if key !in files {
        assert tree - {segs} == tree;
        return FileNotFound(guest);
      }
      TotalWithout(tree, segs);
      RepresentsRemove(mountPoint, files, tree, segs, key);
      totalBytesUsed := totalBytesUsed - files[key].size;
      files := files - {key};
      tree := tree - {segs};
      return Ok(());
    }
  }

  // ----- What the guest can rely on ----------------------------------------------------------------------------

  datatype Operation =
    | Write(path: string, data: seq<Byte>, time: nat)
    | Read(path: string)
    | Delete(path: string)

  /** None of the operations touches the file `segs`. */
  predicate Elsewhere(ops: seq<Operation>, segs: seq<string>) {
    forall i :: 0 <= i < |ops| ==> Resolve(ops[i].path) != segs
  }

  /** Any sequence of operations on other files, successful or not, leaves a file as it is. */
  method OtherOperations(fs: VirtualFileSystem, ops: seq<Operation>, ghost segs: seq<string>)
    requires fs.Valid() && Elsewhere(ops, segs)
    modifies fs
    ensures fs.Valid() && (segs in fs.tree <==> segs in old(fs.tree))
    ensures segs in fs.tree ==> fs.tree[segs] == old(fs.tree[segs])
  {
    for i := 0 to |ops|
      invariant fs.Valid() && (segs in fs.tree <==> segs in old(fs.tree))
      invariant segs in fs.tree ==> fs.tree[segs] == old(fs.tree[segs])
    {
      assert Resolve(ops[i].path) != segs;
      match ops[i]
      case Write(path, data, time) => var w := fs.WriteFile(path, data, time);
      case Read(path) => var r := fs.ReadFile(path);
      case Delete(path) => var d := fs.DeleteFile(path);
    }
  }

  /** A write succeeds exactly when its result fits. Then what was written is read back, through any spelling of
      the path, after any sequence of operations on other files, and an old file keeps its creation time;
      otherwise what was there before is read. */
  method WriteThenRead(fs: VirtualFileSystem, p: string, q: string, ops: seq<Operation>, data: seq<Byte>, now: nat)
    returns (w: Result<()>, r: Result<seq<Byte>>)
    requires fs.Valid() && Resolve(p) == Resolve(q) && Elsewhere(ops, Resolve(p))
    modifies fs
    ensures fs.Valid()
    ensures w.Ok? <==> FitsIn(old(fs.tree)[Resolve(p) := Node(data, now, now)], fs.maxTotalBytes, fs.maxFileCount)
    ensures w.Ok? ==> r == Ok(data) && Resolve(p) in fs.tree
                      && fs.tree[Resolve(p)].createdAt
                           == (if Resolve(p) in old(fs.tree) then old(fs.tree)[Resolve(p)].createdAt else now)
    ensures !w.Ok? ==> r == if Resolve(p) in old(fs.tree) then Ok(old(fs.tree)[Resolve(p)].content) else FileNotFound(q)
  {
    WriteSucceedsIff(fs.tree, fs.maxTotalBytes, fs.maxFileCount, Resolve(p), Node(data, now, now));
    w := fs.WriteFile(p, data, now);
    OtherOperations(fs, ops, Resolve(p));
    r := fs.ReadFile(q);
  }

  /** ... and what was deleted is not found, likewise. */
  method DeleteThenRead(fs: VirtualFileSystem, p: string, q: string, ops: seq<Operation>) returns (r: Result<seq<Byte>>)
    requires fs.Valid() && Resolve(p) == Resolve(q) && Elsewhere(ops, Resolve(p))
    modifies fs
    ensures fs.Valid() && r == FileNotFound(q)
  {
    var d := fs.DeleteFile(p);
    OtherOperations(fs, ops, Resolve(p));
    r := fs.ReadFile(q);
  }
}
