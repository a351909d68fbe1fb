/** Which files scripts/dev-watch.mjs watches, and the text that stands for their state. */
module WatchFiles {
  import opened Prelude
  import opened Strings

  const WATCHABLE_EXTENSIONS: set<string> := {".css", ".html", ".js", ".json", ".mjs"}
  const WATCHABLE_BASENAMES: set<string> := {".env.dev", "package.json"}
  const IGNORED_SEGMENTS: set<string> := {".aeordb", ".git", ".stagehand", "coverage", "node_modules", "old-app"}

  // ----- paths

  /** The index of the last c in s, or -1. */
  function LastIndex(s: string, c: char): (k: int)
    ensures -1 <= k < |s|
    ensures k >= 0 ==> s[k] == c
    ensures forall i :: k < i < |s| ==> s[i] != c
  {
    if s == "" then -1 else if s[|s| - 1] == c then |s| - 1 else LastIndex(s[..|s| - 1], c)
  }

  /** What stands behind place k, unless that is nothing. */
  function Behind(path: string, k: int): seq<string>
    requires -1 <= k < |path|
  {
    if path[k + 1..] == "" then [] else [path[k + 1..]]
  }

  /** split('/').filter(Boolean) */
  function Segments(path: string): seq<string>
    decreases |path|
  {
    var k := LastIndex(path, '/');
    if k < 0 then Behind(path, k) else Segments(path[..k]) + Behind(path, k)
  }

  /** path.normalize on segments: `.` goes, `..` takes the segment before it along. A `..` at the very
      front is dropped, which no ignored segment can notice. */
  function Normalized(segments: seq<string>): seq<string> {
    if segments == [] then []
    else
      var front, last := Normalized(segments[..|segments| - 1]), segments[|segments| - 1];
      if last == "." then front
      else if last == ".." then (if front == [] then [] else front[..|front| - 1])
      else front + [last]
  }

  predicate ShouldIgnore(path: string) {
    exists segment :: segment in Normalized(Segments(path)) && segment in IGNORED_SEGMENTS
  }

  function Basename(path: string): string {
    var segments := Segments(path);
    if segments == [] then "" else segments[|segments| - 1]
  }

  /** From the last dot, unless the name begins with it. */
  function ExtensionOf(base: string): string {
    var k := LastIndex(base, '.');
    if k <= 0 then "" else base[k..]
  }

  /** path.extname */
  function Extname(path: string): string {
    ExtensionOf(Basename(path))
  }

  predicate IsWatchable(path: string) {
    !ShouldIgnore(path) && (Basename(path) in WATCHABLE_BASENAMES || Extname(path) in WATCHABLE_EXTENSIONS)
  }

  /** What readdir may return as the name of an entry. */
  predicate IsName(name: string) {
    name != "" && '/' !in name && name != "." && name != ".."
  }

  /** path.join of a normalized directory path and an entry name. */
  function Child(dir: string, name: string): string {
    if dir == "/" then "/" + name else dir + "/" + name
  }

  lemma {:induction false} LastIndexOfJoin(dir: string, name: string)
    requires '/' !in name
    ensures LastIndex(dir + "/" + name, '/') == |dir|
  {
    var path := dir + "/" + name;
    if name != "" {
      LastIndexOfJoin(dir, name[..|name| - 1]);
      assert path[..|path| - 1] == dir + "/" + name[..|name| - 1];
      assert path[|path| - 1] == name[|name| - 1];
    }
  }

  lemma SegmentsOfJoin(dir: string, name: string)
    requires IsName(name)
    ensures Segments(dir + "/" + name) == Segments(dir) + [name]
  {
    LastIndexOfJoin(dir, name);
    var path := dir + "/" + name;
    assert path[..|dir|] == dir && path[|dir| + 1..] == name;
  }

  lemma SegmentsOfTrailing(dir: string)
    ensures Segments(dir + "/") == Segments(dir)
  {
    LastIndexOfJoin(dir, "");
    var path := dir + "/";
    assert dir + "/" + "" == path;
    assert path[..|dir|] == dir && path[|dir| + 1..] == "";
    assert Segments(dir) + [] == Segments(dir);
  }

  lemma SegmentsOfChild(dir: string, name: string)
    requires IsName(name)
    ensures Segments(Child(dir, name)) == Segments(dir) + [name]
  {
    if dir == "/" {
      assert Child(dir, name) == dir[..0] + "/" + name;
      SegmentsOfJoin(dir[..0], name);
      SegmentsOfTrailing(dir[..0]);
      assert dir[..0] + "/" == dir;
    } else {
      SegmentsOfJoin(dir, name);
    }
  }

  /** A path is ignored for what is above it or for its own name. */
  lemma IgnoredIff(dir: string, name: string)
    requires IsName(name)
    ensures ShouldIgnore(Child(dir, name)) <==> ShouldIgnore(dir) || name in IGNORED_SEGMENTS
  {
    SegmentsOfChild(dir, name);
    var above := Normalized(Segments(dir));
    NormalizedName(Segments(dir), name);
    if name in IGNORED_SEGMENTS {
      assert name in above + [name];
    }
    if ShouldIgnore(dir) {
      var segment :| segment in above && segment in IGNORED_SEGMENTS;
      assert segment in above + [name];
    }
  }

  lemma NormalizedName(segments: seq<string>, name: string)
    requires name != "." && name != ".."
    ensures Normalized(segments + [name]) == Normalized(segments) + [name]
  {
    assert (segments + [name])[..|segments|] == segments;
  }

  lemma {:induction false} LastIndexIs(s: string, c: char, k: nat)
    requires k < |s| && s[k] == c && forall i :: k < i < |s| ==> s[i] != c
    ensures LastIndex(s, c) == k
  {
    if k < |s| - 1 {
      LastIndexIs(s[..|s| - 1], c, k);
    }
  }

  /** A dot and no other. */
  predicate IsExtension(ext: string) {
    ext != "" && ext[0] == '.' && forall i :: 1 <= i < |ext| ==> ext[i] != '.'
  }

  lemma WatchableExtensions()
    ensures forall ext :: ext in WATCHABLE_EXTENSIONS ==> IsExtension(ext)
  {
  }

  /** Something, and then ext. */
  predicate EndsIn(base: string, ext: string) {
    |ext| < |base| && base[|base| - |ext|..] == ext
  }

  lemma ExtensionEndsName(base: string)
    requires ExtensionOf(base) != ""
    ensures EndsIn(base, ExtensionOf(base))
  {
    var k := LastIndex(base, '.');
    assert |base[k..]| == |base| - k;
  }

  lemma EndingIsExtension(base: string, ext: string)
    requires IsExtension(ext) && EndsIn(base, ext)
    ensures ExtensionOf(base) == ext
  {
    var k := |base| - |ext|;
    assert base[k] == base[k..][0];
    forall i | k < i < |base|
      ensures base[i] != '.'
    {
      assert base[i] == base[k..][i - k];
    }
    LastIndexIs(base, '.', k);
  }

  lemma ExtensionAmong(base: string, exts: set<string>)
    requires forall ext :: ext in exts ==> IsExtension(ext)
    ensures ExtensionOf(base) in exts <==> exists ext :: ext in exts && EndsIn(base, ext)
  {
    if ExtensionOf(base) in exts {
      ExtensionEndsName(base);
    }
    if ext :| ext in exts && EndsIn(base, ext) {
      EndingIsExtension(base, ext);
    }
  }

  /** A file has a watched extension when its name is something followed by one of them. */
  lemma ExtensionIff(path: string)
    ensures Extname(path) in WATCHABLE_EXTENSIONS
        <==> exists ext :: ext in WATCHABLE_EXTENSIONS && EndsIn(Basename(path), ext)
  {
    WatchableExtensions();
    ExtensionAmong(Basename(path), WATCHABLE_EXTENSIONS);
  }

  // ----- the names, written out

  predicate SourceExtension(ext: string) {
    ext == ".css" || ext == ".html" || ext == ".js" || ext == ".json" || ext == ".mjs"
  }

  predicate SpecialName(name: string) {
    name == ".env.dev" || name == "package.json"
  }

  predicate IgnoredName(name: string) {
    || name == ".aeordb" || name == ".git" || name == ".stagehand" || name == "coverage" || name == "node_modules"
    || name == "old-app"
  }

  lemma NamesAre(name: string)
    ensures name in WATCHABLE_EXTENSIONS <==> SourceExtension(name)
    ensures name in WATCHABLE_BASENAMES <==> SpecialName(name)
    ensures name in IGNORED_SEGMENTS <==> IgnoredName(name)
  {
  }

  /** A path is ignored exactly when, once `.` and `..` are resolved, a segment has one of six names. */
  lemma ShouldIgnoreIff(path: string)
    ensures ShouldIgnore(path) <==> exists segment :: segment in Normalized(Segments(path)) && IgnoredName(segment)
  {
    forall name: string
      ensures name in IGNORED_SEGMENTS <==> IgnoredName(name)
    {
      NamesAre(name);
    }
  }

  /** A file in a directory that is not ignored is watched exactly when it is one of the two special files,
      or its name is something followed by one of five extensions, and it is not called like an ignored
      directory. */
  lemma IsWatchableIff(dir: string, name: string)
    requires IsName(name)
    ensures IsWatchable(Child(dir, name)) <==>
              && !ShouldIgnore(dir) && !IgnoredName(name)
              && (SpecialName(name) || exists ext :: SourceExtension(ext) && EndsIn(name, ext))
  {
    IgnoredIff(dir, name);
    SegmentsOfChild(dir, name);
    NamesAre(name);
    ExtensionIff(Child(dir, name));
    forall ext: string
      ensures ext in WATCHABLE_EXTENSIONS <==> SourceExtension(ext)
    {
      NamesAre(ext);
    }
  }

  // ----- the walk

  /** A finite file tree; `Gone` is an entry that vanished between readdir and stat. */
  datatype Node = File | Dir(entries: seq<Entry>) | Other | Gone

  datatype Entry = Entry(name: string, node: Node)

  predicate NamesOk(node: Node)
    decreases node
  {
    node.Dir? ==> forall i :: 0 <= i < |node.entries| ==> IsName(node.entries[i].name) && NamesOk(node.entries[i].node)
  }

  /** Every file below path, without any pruning. */
  function AllFiles(path: string, node: Node): seq<string>
    decreases node, 1
  {
    match node
    case File => [path]
    case Dir(entries) => AllFilesIn(path, node, |entries|)
    case _ => []
  }

  function AllFilesIn(path: string, node: Node, k: nat): seq<string>
    requires node.Dir? && k <= |node.entries|
    decreases node, 0, k
  {
    if k == 0 then []
    else
      var entry := node.entries[k - 1];
      AllFilesIn(path, node, k - 1) + AllFiles(Child(path, entry.name), entry.node)
  }

  /** files.filter(isWatchableFile) */
  function Watchable(files: seq<string>): seq<string> {
    if files == [] then []
    else Watchable(files[..|files| - 1]) + if IsWatchable(files[|files| - 1]) then [files[|files| - 1]] else []
  }

  lemma {:induction false} WatchableConcat(a: seq<string>, b: seq<string>)
    ensures Watchable(a + b) == Watchable(a) + Watchable(b)
  {
    if b == [] {
      assert a + b == a;
    } else {
      var front := b[..|b| - 1];
      assert (a + b)[..|a + b| - 1] == a + front;
      WatchableConcat(a, front);
    }
  }

  lemma NothingBelowIgnored(path: string, node: Node)
    requires ShouldIgnore(path) && NamesOk(node)
    ensures Watchable(AllFiles(path, node)) == []
    decreases node, 1
  {
    if node.Dir? {
      NothingInIgnored(path, node, |node.entries|);
    } else if node.File? {
      assert [path][..0] == [];
    }
  }

  lemma NothingInIgnored(path: string, node: Node, k: nat)
    requires node.Dir? && k <= |node.entries| && ShouldIgnore(path) && NamesOk(node)
    ensures Watchable(AllFilesIn(path, node, k)) == []
    decreases node, 0, k
  {
    if k > 0 {
      var entry := node.entries[k - 1];
      NothingInIgnored(path, node, k - 1);
      IgnoredIff(path, entry.name);
      NothingBelowIgnored(Child(path, entry.name), entry.node);
      WatchableConcat(AllFilesIn(path, node, k - 1), AllFiles(Child(path, entry.name), entry.node));
    }
  }

  lemma WatchableOne(path: string)
    ensures Watchable([path]) == if IsWatchable(path) then [path] else []
  {
    assert [path][..0] == [];
  }

  /** collectWatchPath: the walk that turns back at ignored directories pushes exactly the files an
      unpruned walk followed by the filter would keep, in the same order. */
  method CollectWatchPath(path: string, node: Node, files: seq<string>) returns (files': seq<string>)
    requires NamesOk(node)
    ensures files' == files + Watchable(AllFiles(path, node))
    decreases node, 2
  {
    files' := files;
    var ignored := ShouldIgnore(path);
    if ignored {
      NothingBelowIgnored(path, node);
    } else if node.File? {
      WatchableOne(path);
      var watchable := IsWatchable(path);
      if watchable {
        files' := files' + [path];
      }
    } else if node.Dir? {
      files' := CollectDirectory(path, node, files);
    }
  }

  /** The kept files of the first k entries of a directory. */
  function KeptIn(path: string, node: Node, k: nat): seq<string>
    requires node.Dir? && k <= |node.entries|
  {
    Watchable(AllFilesIn(path, node, k))
  }

  /** The kept files of the entry at k. */
  function KeptAt(path: string, node: Node, k: nat): seq<string>
    requires node.Dir? && k < |node.entries|
  {
    Watchable(AllFiles(Child(path, node.entries[k].name), node.entries[k].node))
  }

  lemma OneMoreEntry(files: seq<string>, path: string, node: Node, k: nat)
    requires node.Dir? && k < |node.entries|
    ensures files + KeptIn(path, node, k + 1) == files + KeptIn(path, node, k) + KeptAt(path, node, k)
  {
    WatchableConcat(AllFilesIn(path, node, k), AllFiles(Child(path, node.entries[k].name), node.entries[k].node));
  }

  method CollectDirectory(path: string, node: Node, files: seq<string>) returns (files': seq<string>)
    requires node.Dir? && NamesOk(node)
    ensures files' == files + KeptIn(path, node, |node.entries|)
    decreases node, 1
  {
    files' := files;
    assert KeptIn(path, node, 0) == [];
    var k := 0;
    while k < |node.entries|
      invariant k <= |node.entries|
      invariant files' == files + KeptIn(path, node, k)
    {
      files' := CollectEntry(path, node, k, files');
      OneMoreEntry(files, path, node, k);
      k := k + 1;
    }
  }

  method CollectEntry(path: string, node: Node, k: nat, files: seq<string>) returns (files': seq<string>)
    requires node.Dir? && NamesOk(node) && k < |node.entries|
    ensures files' == files + KeptAt(path, node, k)
    decreases node, 0
  {
    files' := CollectWatchPath(Child(path, node.entries[k].name), node.entries[k].node, files);
  }

  function AllUnder(roots: seq<Entry>): seq<string> {
    if roots == [] then []
    else AllUnder(roots[..|roots| - 1]) + AllFiles(roots[|roots| - 1].name, roots[|roots| - 1].node)
  }

  /** collectWatchFiles: each root is named by its resolved path. */
  method CollectWatchFiles(roots: seq<Entry>) returns (files: seq<string>)
    requires forall i :: 0 <= i < |roots| ==> NamesOk(roots[i].node)
    ensures files == Sort(Watchable(AllUnder(roots)))
    ensures Sorted(files) && multiset(files) == multiset(Watchable(AllUnder(roots)))
  {
    files := [];
    for k := 0 to |roots|
      invariant files == Watchable(AllUnder(roots[..k]))
    {
      assert roots[..k + 1][..k] == roots[..k];
      WatchableConcat(AllUnder(roots[..k]), AllFiles(roots[k].name, roots[k].node));
      files := CollectWatchPath(roots[k].name, roots[k].node, files);
    }
    assert roots[..|roots|] == roots;
    SortSorts(files);
    files := Sort(files);
  }

  // ----- what is never watched

  lemma NameOfChild(dir: string, name: string)
    requires IsName(name)
    ensures Basename(Child(dir, name)) == name
  {
    SegmentsOfChild(dir, name);
  }

  /** A file below a directory that is not ignored is watched if its name is. */
  lemma PlainFileIsWatched(dir: string, name: string)
    requires IsName(name) && name in WATCHABLE_BASENAMES && name !in IGNORED_SEGMENTS && !ShouldIgnore(dir)
    ensures IsWatchable(Child(dir, name))
  {
    IgnoredIff(dir, name);
    NameOfChild(dir, name);
  }

  /** Whatever stands at a path, nothing there is watched: exactly the ignored paths. */
  lemma BlindIff(path: string)
    ensures (forall node :: NamesOk(node) ==> Watchable(AllFiles(path, node)) == []) <==> ShouldIgnore(path)
  {
    if ShouldIgnore(path) {
      forall node | NamesOk(node)
        ensures Watchable(AllFiles(path, node)) == []
      {
        NothingBelowIgnored(path, node);
      }
    } else {
      var file := PlainName();
      OneFileSeen(path, file);
    }
  }

  /** A directory with one file in it. */
  function Holding(name: string): Node {
    Dir([Entry(name, File)])
  }

  lemma OneFileSeen(path: string, name: string)
    requires IsName(name) && name in WATCHABLE_BASENAMES && name !in IGNORED_SEGMENTS && !ShouldIgnore(path)
    ensures NamesOk(Holding(name)) && Watchable(AllFiles(path, Holding(name))) == [Child(path, name)]
  {
    var node := Holding(name);
    PlainFileIsWatched(path, name);
    WatchableOne(Child(path, name));
    assert AllFiles(path, node) == AllFilesIn(path, node, 1);
    assert AllFilesIn(path, node, 0) == [];
    assert AllFilesIn(path, node, 1) == [] + [Child(path, name)];
  }

  /** Such a file name exists. */
  lemma PlainName() returns (file: string)
    ensures IsName(file) && file in WATCHABLE_BASENAMES && file !in IGNORED_SEGMENTS
  {
    file := "package.json";
  }

  function RootsAt(paths: seq<string>, nodes: string -> Node): seq<Entry> {
    if paths == [] then []
    else
      var last := paths[|paths| - 1];
      RootsAt(paths[..|paths| - 1], nodes) + [Entry(last, nodes(last))]
  }

  /** What the walk collects below the roots, before sorting. */
  function WatchedUnder(paths: seq<string>, nodes: string -> Node): seq<string> {
    Watchable(AllUnder(RootsAt(paths, nodes)))
  }

  lemma LastRoot(paths: seq<string>, nodes: string -> Node)
    requires paths != []
    ensures WatchedUnder(paths, nodes)
         == WatchedUnder(paths[..|paths| - 1], nodes) + Watchable(AllFiles(paths[|paths| - 1], nodes(paths[|paths| - 1])))
  {
    var last := paths[|paths| - 1];
    var front := RootsAt(paths[..|paths| - 1], nodes);
    var roots := front + [Entry(last, nodes(last))];
    assert roots[..|roots| - 1] == front;
    WatchableConcat(AllUnder(front), AllFiles(last, nodes(last)));
  }

  predicate TreesOk(paths: seq<string>, nodes: string -> Node) {
    forall path :: path in paths ==> NamesOk(nodes(path))
  }

  /** Nothing is watched, whatever the trees at the roots. */
  ghost predicate Blind(paths: seq<string>) {
    forall nodes :: TreesOk(paths, nodes) ==> WatchedUnder(paths, nodes) == []
  }

  lemma {:induction false} IgnoredRootsBlind(paths: seq<string>, nodes: string -> Node)
    requires forall path :: path in paths ==> ShouldIgnore(path) && NamesOk(nodes(path))
    ensures WatchedUnder(paths, nodes) == []
  {
    if paths == [] {
    } else {
      var front, last := paths[..|paths| - 1], paths[|paths| - 1];
      assert last in paths && forall path :: path in front ==> path in paths;
      IgnoredRootsBlind(front, nodes);
      NothingBelowIgnored(last, nodes(last));
      LastRoot(paths, nodes);
    }
  }

  /** What is watched below one root is watched. */
  lemma {:induction false} SeenBelow(paths: seq<string>, nodes: string -> Node, path: string)
    requires path in paths && Watchable(AllFiles(path, nodes(path))) != []
    ensures WatchedUnder(paths, nodes) != []
  {
    LastRoot(paths, nodes);
    if paths[|paths| - 1] != path {
      assert path in paths[..|paths| - 1];
      SeenBelow(paths[..|paths| - 1], nodes, path);
    }
  }

  function Everywhere(node: Node): string -> Node {
    (path: string) => node
  }

  lemma RootSees(paths: seq<string>, path: string, file: string)
    requires path in paths && !ShouldIgnore(path)
    requires IsName(file) && file in WATCHABLE_BASENAMES && file !in IGNORED_SEGMENTS
    ensures !Blind(paths)
  {
    var nodes := Everywhere(Holding(file));
    OneFileSeen(path, file);
    SeenBelow(paths, nodes, path);
    assert TreesOk(paths, nodes);
  }

  /** Whatever stands at some roots, nothing is watched: exactly when every root is ignored. */
  lemma RootsAreBlindIff(paths: seq<string>)
    ensures Blind(paths) <==> forall path :: path in paths ==> ShouldIgnore(path)
  {
    if path :| path in paths && !ShouldIgnore(path) {
      var file := PlainName();
      RootSees(paths, path, file);
    } else {
      forall nodes | TreesOk(paths, nodes)
        ensures WatchedUnder(paths, nodes) == []
      {
        IgnoredRootsBlind(paths, nodes);
      }
    }
  }

  // ----- resolved watch entries

  /** The absolute path of some segments. */
  function Absolute(segments: seq<string>): string {
    if segments == [] then "/" else Child(Absolute(segments[..|segments| - 1]), segments[|segments| - 1])
  }

  /** The way from the root to an entry, as it is written. */
  function Way(cwd: string, entry: string): seq<string> {
    if entry != "" && entry[0] == '/' then Segments(entry) else Segments(cwd) + Segments(entry)
  }

  /** The segments that an entry stands for below the working directory. */
  function Walked(cwd: string, entry: string): seq<string> {
    Normalized(Way(cwd, entry))
  }

  /** path.resolve(cwd, entry) for an absolute cwd. */
  function Resolve(cwd: string, entry: string): string {
    Absolute(Walked(cwd, entry))
  }

  predicate AllNames(segments: seq<string>) {
    forall segment :: segment in segments ==> IsName(segment)
  }

  /** What split leaves: no segment is empty or has a slash. */
  predicate IsPiece(segment: string) {
    segment != "" && '/' !in segment
  }

  predicate AllPieces(segments: seq<string>) {
    forall segment :: segment in segments ==> IsPiece(segment)
  }

  lemma PiecesConcat(a: seq<string>, b: seq<string>)
    requires AllPieces(a) && AllPieces(b)
    ensures AllPieces(a + b)
  {
  }

  lemma BehindIsPiece(path: string, k: int)
    requires -1 <= k < |path| && forall i :: k < i < |path| ==> path[i] != '/'
    ensures AllPieces(Behind(path, k))
  {
  }

  lemma {:induction false} SegmentsArePieces(path: string)
    ensures AllPieces(Segments(path))
    decreases |path|
  {
    var k := LastIndex(path, '/');
    BehindIsPiece(path, k);
    if k >= 0 {
      SegmentsArePieces(path[..k]);
      PiecesConcat(Segments(path[..k]), Behind(path, k));
    }
  }

  lemma NamesSnoc(front: seq<string>, last: string)
    ensures AllNames(front + [last]) <==> AllNames(front) && IsName(last)
    ensures AllPieces(front + [last]) <==> AllPieces(front) && IsPiece(last)
  {
    assert last in front + [last];
    assert forall x :: x in front ==> x in front + [last];
  }

  lemma {:induction false} NormalizedAreNames(segments: seq<string>)
    requires AllPieces(segments)
    ensures AllNames(Normalized(segments))
  {
    if segments == [] {
    } else {
      var front, last := segments[..|segments| - 1], segments[|segments| - 1];
      assert segments == front + [last];
      NamesSnoc(front, last);
      NormalizedAreNames(front);
      if last != "." && last != ".." {
        NamesSnoc(Normalized(front), last);
      }
    }
  }

  lemma {:induction false} NormalizedNames(segments: seq<string>)
    requires AllNames(segments)
    ensures Normalized(segments) == segments
  {
    if segments == [] {
    } else {
      assert segments[|segments| - 1] in segments;
      NormalizedNames(segments[..|segments| - 1]);
      assert segments == segments[..|segments| - 1] + [segments[|segments| - 1]];
    }
  }

  lemma SegmentsOfNothing(path: string)
    requires |path| == 0
    ensures Segments(path) == []
  {
    assert LastIndex(path, '/') == -1;
    assert |path[0..]| == 0;
  }

  lemma SegmentsOfRoot(path: string)
    requires |path| == 1 && path[0] == '/'
    ensures Segments(path) == []
  {
    LastIndexIs(path, '/', 0);
    SegmentsOfNothing(path[..0]);
    assert |path[1..]| == 0;
  }

  lemma {:induction false} SegmentsOfAbsolute(segments: seq<string>)
    requires AllNames(segments)
    ensures Segments(Absolute(segments)) == segments
  {
    if segments == [] {
      SegmentsOfRoot(Absolute(segments));
    } else {
      var front, last := segments[..|segments| - 1], segments[|segments| - 1];
      assert last in segments && segments == front + [last];
      SegmentsOfAbsolute(front);
      SegmentsOfChild(Absolute(front), last);
    }
  }

  predicate HasIgnored(segments: seq<string>) {
    exists segment :: segment in segments && segment in IGNORED_SEGMENTS
  }

  lemma WalkedAreNames(cwd: string, entry: string)
    ensures AllNames(Walked(cwd, entry))
  {
    SegmentsArePieces(cwd);
    SegmentsArePieces(entry);
    PiecesConcat(Segments(cwd), Segments(entry));
    NormalizedAreNames(Way(cwd, entry));
  }

  /** A watch entry of any form is ignored exactly for the segments it resolves to. */
  lemma ResolvedIgnoredIff(cwd: string, entry: string)
    ensures ShouldIgnore(Resolve(cwd, entry)) <==> HasIgnored(Walked(cwd, entry))
  {
    WalkedAreNames(cwd, entry);
    SegmentsOfAbsolute(Walked(cwd, entry));
    NormalizedNames(Walked(cwd, entry));
  }

  function ResolveAll(cwd: string, entries: seq<string>): (paths: seq<string>)
    ensures |paths| == |entries| && forall k :: 0 <= k < |entries| ==> paths[k] == Resolve(cwd, entries[k])
  {
    seq(|entries|, k requires 0 <= k < |entries| => Resolve(cwd, entries[k]))
  }

  /** A checkout watches nothing, whatever it holds, exactly when every watch entry resolves to a path
      with an ignored segment, be it above or inside the working directory. Entries may be of any form:
      nested, with dots, or absolute. */
  lemma CheckoutIsBlindIff(cwd: string, entries: seq<string>)
    ensures Blind(ResolveAll(cwd, entries)) <==> forall entry :: entry in entries ==> HasIgnored(Walked(cwd, entry))
  {
    var paths := ResolveAll(cwd, entries);
    RootsAreBlindIff(paths);
    forall entry
      ensures ShouldIgnore(Resolve(cwd, entry)) <==> HasIgnored(Walked(cwd, entry))
    {
      ResolvedIgnoredIff(cwd, entry);
    }
    if entry :| entry in entries && !HasIgnored(Walked(cwd, entry)) {
      var k :| 0 <= k < |entries| && entries[k] == entry;
      assert paths[k] in paths;
    }
  }

  lemma WalkedName(cwd: string, name: string)
    requires IsName(name)
    ensures Walked(cwd, name) == Normalized(Segments(cwd)) + [name]
  {
    assert name[0] in name;
    SegmentsOfName(name);
    NormalizedName(Segments(cwd), name);
  }

  lemma SegmentsOfName(name: string)
    requires IsName(name)
    ensures Segments(name) == [name]
  {
    assert LastIndex(name, '/') == -1;
    assert name[0..] == name;
  }

  /** The roots main watches by default, below the working directory. */
  const DEFAULT_WATCH_ENTRIES: seq<string> := ["src", "scripts", "package.json", ".env.dev"]

  lemma DefaultEntries()
    ensures DEFAULT_WATCH_ENTRIES != []
    ensures forall entry :: entry in DEFAULT_WATCH_ENTRIES ==> IsName(entry) && entry !in IGNORED_SEGMENTS
  {
  }

  lemma NameIsBlindIff(cwd: string, name: string)
    requires IsName(name) && name !in IGNORED_SEGMENTS
    ensures HasIgnored(Walked(cwd, name)) <==> ShouldIgnore(cwd)
  {
    WalkedName(cwd, name);
    var above := Normalized(Segments(cwd));
    if ShouldIgnore(cwd) {
      var segment :| segment in above && segment in IGNORED_SEGMENTS;
      assert segment in above + [name];
    }
  }

  /** By default only the place of the checkout can do that: below a directory named coverage or
      old-app, for instance, no change is ever seen. */
  lemma DefaultCheckoutIsBlindIff(cwd: string)
    ensures Blind(ResolveAll(cwd, DEFAULT_WATCH_ENTRIES)) <==> ShouldIgnore(cwd)
  {
    DefaultEntries();
    CheckoutIsBlindIff(cwd, DEFAULT_WATCH_ENTRIES);
    forall entry | entry in DEFAULT_WATCH_ENTRIES
      ensures HasIgnored(Walked(cwd, entry)) <==> ShouldIgnore(cwd)
    {
      NameIsBlindIff(cwd, entry);
    }
    NonemptyHasMember(DEFAULT_WATCH_ENTRIES);
  }

  // ----- the fingerprint

  /** What stat answers; the modification time in whole thousandths of a millisecond. */
  datatype Stat = Stats(mtime: int, size: nat) | Missing | Broken(message: string)

  function Abs(m: int): nat {
    if m < 0 then -m else m
  }

  function Pad3(n: nat): string
    requires n < 1000
  {
    [DigitChar(n / 100), DigitChar(n / 10 % 10), DigitChar(n % 10)]
  }

  /** toFixed(3) */
  function Fixed3(milli: int): string {
    (if milli < 0 then "-" else "") + Digits(Abs(milli) / 1000) + "." + Pad3(Abs(milli) % 1000)
  }

  function Line(path: string, stat: Stat): string
    requires !stat.Broken?
  {
    if stat.Missing? then path + ":" + "missing"
    else path + ":" + Fixed3(stat.mtime) + ":" + Digits(stat.size)
  }

  function Lines(files: seq<string>, stat: string -> Stat): seq<string>
    requires forall f :: f in files ==> !stat(f).Broken?
  {
    if files == [] then []
    else Lines(files[..|files| - 1], stat) + [Line(files[|files| - 1], stat(files[|files| - 1]))]
  }

  function FirstBroken(files: seq<string>, stat: string -> Stat): Option<string> {
    if files == [] then None
    else if stat(files[0]).Broken? then Some(stat(files[0]).message)
    else FirstBroken(files[1..], stat)
  }

  lemma {:induction false} FirstBrokenAt(files: seq<string>, stat: string -> Stat, k: nat)
    requires k < |files| && stat(files[k]).Broken? && forall i :: 0 <= i < k ==> !stat(files[i]).Broken?
    ensures FirstBroken(files, stat) == Some(stat(files[k]).message)
  {
    if k > 0 {
      assert files[1..][k - 1] == files[k];
      FirstBrokenAt(files[1..], stat, k - 1);
    }
  }

  lemma {:induction false} NoneBroken(files: seq<string>, stat: string -> Stat)
    ensures FirstBroken(files, stat).None? <==> forall f :: f in files ==> !stat(f).Broken?
  {
    if files == [] {
    } else {
      NoneBroken(files[1..], stat);
      assert files == [files[0]] + files[1..];
    }
  }

  function FingerprintOf(files: seq<string>, stat: string -> Stat): Result<string, string> {
    var sorted := Sort(files);
    NoneBroken(sorted, stat);
    if FirstBroken(sorted, stat).Some? then Err(FirstBroken(sorted, stat).value)
    else Ok(JoinLines(Lines(sorted, stat)))
  }

  /** fingerprintFiles: any error but ENOENT is rethrown. */
  method FingerprintFiles(files: seq<string>, stat: string -> Stat) returns (r: Result<string, string>)
    ensures r == FingerprintOf(files, stat)
  {
    var parts, sorted := [], Sort(files);
    for k := 0 to |sorted|
      invariant forall i :: 0 <= i < k ==> !stat(sorted[i]).Broken?
      invariant parts == Lines(sorted[..k], stat)
    {
      assert sorted[..k + 1][..k] == sorted[..k];
      if stat(sorted[k]).Broken? {
        FirstBrokenAt(sorted, stat, k);
        return Err(stat(sorted[k]).message);
      }
      parts := parts + [Line(sorted[k], stat(sorted[k]))];
    }
    assert sorted[..|sorted|] == sorted;
    NoneBroken(sorted, stat);
    return Ok(JoinLines(parts));
  }

  /** The state of the watched files: every path with what stat says, in order. */
  function Snapshot(files: seq<string>, stat: string -> Stat): seq<(string, Stat)> {
    Stated(Sort(files), stat)
  }

  function Stated(files: seq<string>, stat: string -> Stat): seq<(string, Stat)> {
    seq(|files|, i requires 0 <= i < |files| => (files[i], stat(files[i])))
  }

  /** The order in which the files were collected does not matter. */
  lemma FingerprintIsCanonical(files: seq<string>, files': seq<string>, stat: string -> Stat)
    requires multiset(files) == multiset(files')
    ensures FingerprintOf(files, stat) == FingerprintOf(files', stat)
    ensures Snapshot(files, stat) == Snapshot(files', stat)
  {
    SortIgnoresOrder(files, files');
  }

  /** A numeral with a sign and a point. */
  lemma Fixed3Shape(m: int)
    ensures Fixed3(m)[0] == '-' <==> m < 0
    ensures ':' !in Fixed3(m) && OneLine(Fixed3(m))
  {
    DigitsValue(Abs(m) / 1000);
  }

  lemma Pad3Value(n: nat)
    requires n < 1000
    ensures IsDigit(Pad3(n)[0]) && IsDigit(Pad3(n)[1]) && IsDigit(Pad3(n)[2])
    ensures 100 * DigitValue(Pad3(n)[0]) + 10 * DigitValue(Pad3(n)[1]) + DigitValue(Pad3(n)[2]) == n
  {
    assert 10 * (n / 10) + n % 10 == n && 10 * (n / 100) + n / 10 % 10 == n / 10;
  }

  lemma Pad3Injective(a: nat, b: nat)
    requires a < 1000 && b < 1000 && Pad3(a) == Pad3(b)
    ensures a == b
  {
    Pad3Value(a);
    Pad3Value(b);
  }

  lemma Fixed3Injective(m: int, n: int)
    requires Fixed3(m) == Fixed3(n)
    ensures m == n
  {
    var a, b := Abs(m), Abs(n);
    var u, v := (if m < 0 then "-" else "") + Digits(a / 1000), (if n < 0 then "-" else "") + Digits(b / 1000);
    Fixed3Shape(m);
    Fixed3Shape(n);
    assert Fixed3(m) == u + ['.'] + Pad3(a % 1000) && Fixed3(n) == v + ['.'] + Pad3(b % 1000);
    SplitLast(u, Pad3(a % 1000), v, Pad3(b % 1000), '.');
    Pad3Injective(a % 1000, b % 1000);
    var sign := if m < 0 then 1 else 0;
    assert u[sign..] == Digits(a / 1000) && v[sign..] == Digits(b / 1000);
    DigitsInjective(a / 1000, b / 1000);
  }

  /** How a line reads: path, milliseconds to three places, size. */
  lemma LineReads(path: string, whole: nat, milli: nat, size: nat)
    requires milli < 1000
    ensures Line(path, Stats(1000 * whole + milli, size))
         == path + ":" + (Digits(whole) + "." + [DigitChar(milli / 100), DigitChar(milli / 10 % 10), DigitChar(milli % 10)])
            + ":" + Digits(size)
    ensures Line(path, Missing) == path + ":" + "missing"
  {
    assert (1000 * whole + milli) / 1000 == whole && (1000 * whole + milli) % 1000 == milli;
    assert "" + Digits(whole) == Digits(whole);
  }

  /** Even when the path contains colons, a line tells the path and what stat said about it. */
  lemma LineInjective(p: string, s: Stat, q: string, t: Stat)
    requires !s.Broken? && !t.Broken? && Line(p, s) == Line(q, t)
    ensures p == q && s == t
  {
    var su, tu := if s.Missing? then p else p + ":" + Fixed3(s.mtime), if t.Missing? then q else q + ":" + Fixed3(t.mtime);
    var sv, tv := if s.Missing? then "missing" else Digits(s.size), if t.Missing? then "missing" else Digits(t.size);
    assert Line(p, s) == su + [':'] + sv && Line(q, t) == tu + [':'] + tv;
    if s.Stats? {
      DigitsValue(s.size);
      Fixed3Shape(s.mtime);
    }
    if t.Stats? {
      DigitsValue(t.size);
      Fixed3Shape(t.mtime);
    }
    assert !IsDigit("missing"[0]);
    SplitLast(su, sv, tu, tv, ':');
    if s.Stats? && t.Stats? {
      DigitsInjective(s.size, t.size);
      assert p + ":" + Fixed3(s.mtime) == p + [':'] + Fixed3(s.mtime);
      SplitLast(p, Fixed3(s.mtime), q, Fixed3(t.mtime), ':');
      Fixed3Injective(s.mtime, t.mtime);
    }
  }

  lemma LineIsOneLine(p: string, s: Stat)
    requires !s.Broken?
    ensures Line(p, s) != "" && (OneLine(Line(p, s)) <==> OneLine(p))
  {
    if s.Stats? {
      Fixed3Shape(s.mtime);
      DigitsValue(s.size);
    }
  }

  lemma {:induction false} LinesAt(files: seq<string>, stat: string -> Stat, k: nat)
    requires k < |files| && forall f :: f in files ==> !stat(f).Broken?
    ensures |Lines(files, stat)| == |files| && Lines(files, stat)[k] == Line(files[k], stat(files[k]))
  {
    if k < |files| - 1 {
      LinesAt(files[..|files| - 1], stat, k);
    } else if |files| > 1 {
      LinesAt(files[..|files| - 1], stat, 0);
    }
  }

  lemma LinesFacts(files: seq<string>, stat: string -> Stat)
    requires forall f :: f in files ==> !stat(f).Broken? && OneLine(f)
    ensures |Lines(files, stat)| == |files|
    ensures forall k :: 0 <= k < |files| ==> Lines(files, stat)[k] == Line(files[k], stat(files[k]))
    ensures forall x :: x in Lines(files, stat) ==> OneLine(x) && x != ""
  {
    forall k | 0 <= k < |files|
      ensures |Lines(files, stat)| == |files|
      ensures Lines(files, stat)[k] == Line(files[k], stat(files[k]))
      ensures OneLine(Line(files[k], stat(files[k]))) && Line(files[k], stat(files[k])) != ""
    {
      LinesAt(files, stat, k);
      LineIsOneLine(files[k], stat(files[k]));
    }
  }

  predicate Printable(files: seq<string>, stat: string -> Stat) {
    forall f :: f in files ==> OneLine(f) && !stat(f).Broken?
  }

  /** Joined lines tell every path and what stat said about it. */
  lemma SameLinesSameStats(s: seq<string>, stat: string -> Stat, t: seq<string>, stat': string -> Stat)
    requires Printable(s, stat) && Printable(t, stat')
    requires JoinLines(Lines(s, stat)) == JoinLines(Lines(t, stat'))
    ensures Stated(s, stat) == Stated(t, stat')
  {
    LinesFacts(s, stat);
    LinesFacts(t, stat');
    JoinInjective(Lines(s, stat), Lines(t, stat'));
    forall k | 0 <= k < |s|
      ensures s[k] == t[k] && stat(s[k]) == stat'(t[k])
    {
      assert Line(s[k], stat(s[k])) == Line(t[k], stat'(t[k]));
      LineInjective(s[k], stat(s[k]), t[k], stat'(t[k]));
    }
  }

  lemma OkMeansLines(files: seq<string>, stat: string -> Stat)
    requires FingerprintOf(files, stat).Ok? && forall f :: f in files ==> OneLine(f)
    ensures Printable(Sort(files), stat)
    ensures FingerprintOf(files, stat) == Ok(JoinLines(Lines(Sort(files), stat)))
  {
    SortSorts(files);
    NoneBroken(Sort(files), stat);
  }

  /** Equal fingerprints mean equal snapshots: as long as no path contains a line break, the text
      stands for the whole sorted list of paths, rounded times and sizes. */
  lemma FingerprintIsFaithful(files: seq<string>, stat: string -> Stat, files': seq<string>, stat': string -> Stat)
    requires forall f :: f in files ==> OneLine(f)
    requires forall f :: f in files' ==> OneLine(f)
    requires FingerprintOf(files, stat).Ok? && FingerprintOf(files, stat) == FingerprintOf(files', stat')
    ensures Snapshot(files, stat) == Snapshot(files', stat')
  {
    OkMeansLines(files, stat);
    OkMeansLines(files', stat');
    SameLinesSameStats(Sort(files), stat, Sort(files'), stat');
  }

  function AllMissing(f: string): Stat {
    Missing
  }

  lemma OneMissing(f: string)
    ensures FingerprintOf([f], AllMissing) == Ok(Line(f, Missing))
    ensures |Snapshot([f], AllMissing)| == 1
  {
    SortOfSorted([f]);
    NoneBroken([f], AllMissing);
    LinesAt([f], AllMissing, 0);
    assert Lines([f], AllMissing) == [Line(f, Missing)];
  }

  lemma TwoMissing(f: string, g: string)
    requires LexLe(f, g)
    ensures FingerprintOf([f, g], AllMissing) == Ok(Line(f, Missing) + "\n" + Line(g, Missing))
    ensures |Snapshot([f, g], AllMissing)| == 2
  {
    SortOfSorted([f, g]);
    NoneBroken([f, g], AllMissing);
    LinesAt([f, g], AllMissing, 0);
    LinesAt([f, g], AllMissing, 1);
    var lines := Lines([f, g], AllMissing);
    assert lines == [Line(f, Missing), Line(g, Missing)];
    assert lines[1..] == [Line(g, Missing)];
    assert JoinLines(lines) == lines[0] + "\n" + JoinLines(lines[1..]);
  }

  /** A blind checkout has one fingerprint for ever. */
  lemma BlindFingerprint(paths: seq<string>, nodes: string -> Node, stat: string -> Stat)
    requires Blind(paths) && TreesOk(paths, nodes)
    ensures FingerprintOf(WatchedUnder(paths, nodes), stat) == Ok("")
  {
    SortOfSorted([]);
    NoneBroken([], stat);
  }

  lemma TwoLinesInOne(f: string, g: string)
    ensures Line(f + ":missing\n" + g, Missing) == Line(f, Missing) + "\n" + Line(g, Missing)
  {
    assert ":missing\n" == ":" + "missing" + "\n";
  }

  /** With a line break in a path it fails: for any two paths, one missing file whose path spells the
      line of the first before the second looks like the two missing files. */
  lemma LineBreaksConfuse(f: string, g: string)
    requires LexLe(f, g)
    ensures FingerprintOf([f + ":missing\n" + g], AllMissing) == FingerprintOf([f, g], AllMissing)
    ensures Snapshot([f + ":missing\n" + g], AllMissing) != Snapshot([f, g], AllMissing)
  {
    OneMissing(f + ":missing\n" + g);
    TwoMissing(f, g);
    TwoLinesInOne(f, g);
  }
}
