/** `_source_manifest`: a directory tree is accepted only if it is exactly the expected set of source files. */
module SourceManifest {
  import opened Bytes
  import opened Wrappers
  import opened TextOrder
  import opened PosixPath
  import opened FileTree

  datatype Contract = Contract(expectedFiles: set<string>, allowedDirectories: set<string>, ignoredRoots: set<string>)

  datatype SourceError = Unavailable | RootNotDirectory | IsSymlink | UnexpectedDirectory | NotRegular | UnexpectedFile | MissingFiles

  datatype ManifestEntry = ManifestEntry(relative: string, size: nat, digest: string)

  type Digest = bytes -> string

  // ---------- Nodes by path ----------

  lemma {:induction false} NodeAtChild(root: Node, path: seq<string>, name: string)
    ensures NodeAt(root, path + [name]) ==
            match NodeAt(root, path)
            case Some(Dir(_, _, children)) => if name in children then Some(children[name]) else None
            case _ => None
  {
    if path == [] {
      assert [] + [name] == [name] && [name][1..] == [];
    } else {
      assert (path + [name])[1..] == path[1..] + [name];
      if root.Dir? && path[0] in root.children {
        NodeAtChild(root.children[path[0]], path[1..], name);
      }
    }
  }

  /** Every step of a path leads through a directory. */
  lemma {:induction false} NodeAtPrefix(root: Node, path: seq<string>, k: nat)
    requires k < |path| && NodeAt(root, path).Some?
    ensures NodeAt(root, path[..k]).Some? && NodeAt(root, path[..k]).value.Dir?
    ensures path[k] in NodeAt(root, path[..k]).value.children
  {
    if k > 0 {
      NodeAtPrefix(root.children[path[0]], path[1..], k - 1);
      assert path[..k][1..] == path[1..][..k - 1];
    }
  }

  lemma {:induction false} NamesOnPath(root: Node, path: seq<string>)
    requires Named(root) && NodeAt(root, path).Some?
    ensures PlainParts(path) && Named(NodeAt(root, path).value)
  {
    if path != [] {
      NamesOnPath(root.children[path[0]], path[1..]);
      assert forall i :: 0 < i < |path| ==> path[i] == path[1..][i - 1];
    }
  }

  // ---------- What is accepted ----------

  /** Nodes outside the skipped root directories. */
  predicate Visible(root: Node, c: Contract, path: seq<string>) {
    && path != [] && NodeAt(root, path).Some?
    && !(path[0] in c.ignoredRoots && NodeAt(root, [path[0]]).Some? && NodeAt(root, [path[0]]).value.Dir?)
  }

  predicate Allowed(root: Node, c: Contract, path: seq<string>)
    requires NodeAt(root, path).Some?
  {
    match NodeAt(root, path).value
    case Dir(_, _, _) => Relative(path) in c.allowedDirectories
    case File(_, _, _) => Relative(path) in c.expectedFiles
    case Symlink(_, _, _) => false
    case Other(_, _) => false
  }

  ghost predicate PresentFile(root: Node, c: Contract, path: seq<string>, text: string) {
    Visible(root, c, path) && NodeAt(root, path).value.File? && Relative(path) == text
  }

  /** No links or special files, every directory allowed, and exactly the expected files. */
  ghost predicate Accepts(root: Node, c: Contract) {
    && root.Dir?
    && (forall path :: Visible(root, c, path) ==> Allowed(root, c, path))
    && (forall text :: text in c.expectedFiles ==> exists path :: PresentFile(root, c, path, text))
  }

  /** The manifest of accepted trees: one entry for each expected file, strictly sorted by path. */
  ghost predicate IsManifest(root: Node, c: Contract, sha256: Digest, m: seq<ManifestEntry>) {
    && |m| == |c.expectedFiles|
    && (forall i, j :: 0 <= i < j < |m| ==> Less(m[i].relative, m[j].relative))
    && (forall i :: 0 <= i < |m| ==> m[i].relative in c.expectedFiles)
    && (forall i, path :: 0 <= i < |m| && PresentFile(root, c, path, m[i].relative) ==>
          m[i].size == |NodeAt(root, path).value.content| && m[i].digest == sha256(NodeAt(root, path).value.content))
  }

  // ---------- A tree that changes while it is read ----------

  /** What the root directory holds at each step of a reader, if it is there at all. */
  type Tree = nat -> Option<Node>

  /** Nothing changed up to this step. */
  ghost predicate Steady(tree: Tree, steps: nat) { forall t: nat :: t <= steps ==> tree(t) == tree(0) }

  function Seen(tree: Tree, t: nat, path: seq<string>): Option<Node> {
    match tree(t)
    case Some(root) => NodeAt(root, path)
    case None => None
  }

  lemma SeenSteady(tree: Tree, steps: nat, t: nat, path: seq<string>)
    requires t <= steps
    ensures Steady(tree, steps) ==> Seen(tree, t, path) == Seen(tree, 0, path)
  {
  }

  lemma SteadyBefore(tree: Tree, earlier: nat, steps: nat)
    requires earlier <= steps
    ensures Steady(tree, steps) ==> Steady(tree, earlier)
  {
  }

  datatype SourceFile = SourceFile(payload: bytes, mode: nat)

  predicate HoldsFile(node: Option<Node>, mode: nat, size: nat) {
    node.Some? && node.value.File? && node.value.mode == mode && |node.value.content| == size
  }

  ghost predicate SameNode(tree: Tree, start: nat, end: nat, path: seq<string>) {
    forall t: nat :: start <= t <= end ==> Seen(tree, t, path) == Seen(tree, start, path)
  }

  /** `_read_regular_file`: look, open, read, look again. Any call may fail. Bytes read from a file that is not
      what was opened any more are arbitrary, and the last look may or may not notice a change. */
  method ReadRegularFile(tree: Tree, path: seq<string>, start: nat)
    returns (r: Option<SourceFile>, end: nat, ghost failed: bool)
    ensures end >= start && (failed ==> r.None?)
    ensures r.Some? ==> exists t: nat :: start <= t <= end && HoldsFile(Seen(tree, t, path), r.value.mode, |r.value.payload|)
    ensures SameNode(tree, start, end, path) && !failed ==>
              (r.Some? <==> Seen(tree, start, path).Some? && Seen(tree, start, path).value.File?)
    ensures SameNode(tree, start, end, path) && r.Some? ==>
              Seen(tree, start, path).Some? && Seen(tree, start, path).value.File? &&
              r.value == SourceFile(Seen(tree, start, path).value.content, Seen(tree, start, path).value.mode)
  {
    end := start + 1;
    var fault: bool := *;
    var before := Seen(tree, start, path);
    var held := Seen(tree, start + 1, path);
    failed := fault;
    if fault || before.None? || held.None? || !before.value.File? || !held.value.File? {
      return None, end, failed;
    }
    end := start + 3;
    var noise: bytes := *;
    var payload := if Seen(tree, start + 2, path) == held then held.value.content else noise;
    var after := Seen(tree, start + 3, path);
    var noticed: bool := *;
    fault := *;
    failed := fault;
    if fault || after.None? || (noticed && after != before) || |payload| != |held.value.content|
       || (after.value.File? && |after.value.content| != |before.value.content|)
    {
      return None, end, failed;
    }
    assert HoldsFile(Seen(tree, start + 1, path), held.value.mode, |payload|);
    r := Some(SourceFile(payload, held.value.mode));
  }

  // ---------- The traversal ----------

  /** `_manifest`: the items of a dictionary, sorted by key. */
  function ManifestOf(files: map<string, bytes>, keys: seq<string>, sha256: Digest): (m: seq<ManifestEntry>)
    requires forall k :: k in keys ==> k in files
    ensures |m| == |keys|
    ensures forall i :: 0 <= i < |m| ==> m[i] == ManifestEntry(keys[i], |files[keys[i]]|, sha256(files[keys[i]]))
  {
    seq(|keys|, i requires 0 <= i < |keys| => ManifestEntry(keys[i], |files[keys[i]]|, sha256(files[keys[i]])))
  }

  predicate Extends(path: seq<string>, longer: seq<string>) { |path| < |longer| && path == longer[..|path|] }

  /** The node is allowed, and a file is in the dictionary. */
  ghost predicate Settled(root: Node, c: Contract, files: map<string, bytes>, path: seq<string>) {
    && NodeAt(root, path).Some? && Allowed(root, c, path)
    && (NodeAt(root, path).value.File? ==>
          Relative(path) in files && files[Relative(path)] == NodeAt(root, path).value.content)
  }

  ghost predicate UnderPending(pending: seq<seq<string>>, path: seq<string>) {
    exists k :: 0 <= k < |pending| && Extends(pending[k], path)
  }

  /** Below the directory being read, through a name not looked at yet. */
  predicate Waiting(directory: seq<string>, names: seq<string>, path: seq<string>) {
    Extends(directory, path) && path[|directory|] in names
  }

  ghost predicate DirectoryOk(root: Node, c: Contract, path: seq<string>) {
    && NodeAt(root, path).Some? && NodeAt(root, path).value.Dir?
    && (path == [] || Visible(root, c, path))
  }

  ghost predicate PendingOk(root: Node, c: Contract, pending: seq<seq<string>>) {
    forall k :: 0 <= k < |pending| ==> DirectoryOk(root, c, pending[k])
  }

  ghost predicate FilesOk(root: Node, c: Contract, files: map<string, bytes>) {
    forall text :: text in files ==> text in c.expectedFiles && exists path ::
      PresentFile(root, c, path, text) && NodeAt(root, path).value.content == files[text]
  }

  ghost predicate Covered(root: Node, c: Contract, files: map<string, bytes>, pending: seq<seq<string>>,
                          directory: seq<string>, names: seq<string>) {
    forall path :: Visible(root, c, path) ==>
      Settled(root, c, files, path) || UnderPending(pending, path) || Waiting(directory, names, path)
  }

  /** While nothing has changed: what is pending and found, and that nothing visible is forgotten. */
  ghost predicate OnCourse(tree: Tree, steps: nat, c: Contract, files: map<string, bytes>, pending: seq<seq<string>>,
                           directory: seq<string>, names: seq<string>) {
    Steady(tree, steps) ==>
      tree(0).Some? && PendingOk(tree(0).value, c, pending) && FilesOk(tree(0).value, c, files) &&
      Covered(tree(0).value, c, files, pending, directory, names)
  }

  /** A child of a directory being read is visible unless it is a skipped root directory. */
  lemma ChildVisible(root: Node, c: Contract, directory: seq<string>, name: string)
    requires DirectoryOk(root, c, directory) && NodeAt(root, directory + [name]).Some?
    ensures name in NodeAt(root, directory).value.children
    ensures Visible(root, c, directory + [name]) <==>
            !(directory == [] && name in c.ignoredRoots && NodeAt(root, directory + [name]).value.Dir?)
  {
    NodeAtChild(root, directory, name);
    if directory == [] {
      assert [] + [name] == [name];
    } else {
      assert (directory + [name])[0] == directory[0];
    }
  }

  /** Moving on to the next name: every visible path is still settled, pending or waiting. */
  lemma NextName(root: Node, c: Contract, files: map<string, bytes>, files': map<string, bytes>,
                 pending: seq<seq<string>>, pending': seq<seq<string>>, directory: seq<string>, names: seq<string>)
    requires Named(root) && DirectoryOk(root, c, directory) && names != []
    requires NodeAt(root, directory + [names[0]]).Some?
    requires Covered(root, c, files, pending, directory, names)
    requires var child := directory + [names[0]];
      var node := NodeAt(root, child).value;
      || (!Visible(root, c, child) && files' == files && pending' == pending)
      || (Visible(root, c, child) && Allowed(root, c, child) && node.Dir? && files' == files && pending' == pending + [child])
      || (Visible(root, c, child) && Allowed(root, c, child) && node.File? && pending' == pending &&
          files' == files[Relative(child) := node.content])
    ensures Covered(root, c, files', pending', directory, names[1..])
  {
    var child := directory + [names[0]];
    forall path | Visible(root, c, path)
      ensures Settled(root, c, files', path) || UnderPending(pending', path) || Waiting(directory, names[1..], path)
    {
      if Settled(root, c, files, path) {
        SettledAfter(root, c, files, files', path, child);
      } else if UnderPending(pending, path) {
        var k :| 0 <= k < |pending| && Extends(pending[k], path);
        assert pending'[k] == pending[k];
      } else if path[|directory|] == names[0] {
        ThroughFirstName(root, c, directory, names[0], path);
        if path != child && NodeAt(root, child).value.Dir? && Visible(root, c, child) {
          assert pending'[|pending|] == child;
        }
      }
    }
  }

  lemma SettledAfter(root: Node, c: Contract, files: map<string, bytes>, files': map<string, bytes>, path: seq<string>, child: seq<string>)
    requires Named(root) && Settled(root, c, files, path) && NodeAt(root, child).Some?
    requires files' == files || (NodeAt(root, child).value.File? && files' == files[Relative(child) := NodeAt(root, child).value.content])
    ensures Settled(root, c, files', path)
  {
    if Relative(path) == Relative(child) {
      NamesOnPath(root, path);
      NamesOnPath(root, child);
      RelativeInjective(path, child);
    }
  }

  /** A visible path through a name is that child, or lies below it and the child is a visible directory. */
  lemma ThroughFirstName(root: Node, c: Contract, directory: seq<string>, name: string, path: seq<string>)
    requires DirectoryOk(root, c, directory) && NodeAt(root, directory + [name]).Some?
    requires Visible(root, c, path) && Extends(directory, path) && path[|directory|] == name
    ensures path == directory + [name] ||
            (Extends(directory + [name], path) && NodeAt(root, directory + [name]).value.Dir? &&
             Visible(root, c, directory + [name]))
  {
    var child := directory + [name];
    var n := |directory|;
    assert child == path[..n + 1];
    if |path| > n + 1 {
      NodeAtPrefix(root, path, n + 1);
      assert child[0] == path[0];
    } else {
      assert path == child;
    }
  }

  lemma AddFile(root: Node, c: Contract, files: map<string, bytes>, path: seq<string>)
    requires FilesOk(root, c, files) && Visible(root, c, path) && NodeAt(root, path).value.File? && Allowed(root, c, path)
    ensures FilesOk(root, c, files[Relative(path) := NodeAt(root, path).value.content])
  {
    assert PresentFile(root, c, path, Relative(path));
  }

  // ---------- Termination, whatever changes ----------

  function Texts(reached: set<seq<string>>): set<string> {
    set path | path in reached && path != [] :: Relative(path)
  }

  /** Allowed directories that have not been put on the stack. */
  function Room(c: Contract, reached: set<seq<string>>): nat { |c.allowedDirectories - Texts(reached)| }

  function Parent(path: seq<string>): seq<string>
    requires path != []
  {
    path[..|path| - 1]
  }

  /** Each directory is put on the stack at most once, by its parent, and read at most once. */
  ghost predicate Queue(c: Contract, pending: seq<seq<string>>, reached: set<seq<string>>, expanded: set<seq<string>>) {
    && (forall k :: 0 <= k < |pending| ==> pending[k] in reached && pending[k] !in expanded)
    && (forall j, k :: 0 <= j < k < |pending| ==> pending[j] != pending[k])
    && expanded <= reached
    && (forall path :: path in reached ==> PlainParts(path) && (path != [] ==> Parent(path) in expanded))
  }

  /** The children of the directory on the stack come from the names already looked at. */
  ghost predicate ChildrenFrom(reached: set<seq<string>>, directory: seq<string>, names: seq<string>) {
    forall path :: path in reached && path != [] && Parent(path) == directory ==> path[|path| - 1] in names
  }

  lemma PopQueue(c: Contract, pending: seq<seq<string>>, reached: set<seq<string>>, expanded: set<seq<string>>)
    requires Queue(c, pending, reached, expanded) && pending != []
    ensures var directory := pending[|pending| - 1];
      && Queue(c, pending[..|pending| - 1], reached, expanded + {directory})
      && ChildrenFrom(reached, directory, []) && directory in reached && PlainParts(directory)
  {
  }

  lemma NewChild(reached: set<seq<string>>, directory: seq<string>, names: seq<string>, i: nat)
    requires i < |names| && StrictlySorted(names) && ChildrenFrom(reached, directory, names[..i])
    ensures directory + [names[i]] !in reached
  {
    hide Less;
    var child := directory + [names[i]];
    assert Parent(child) == directory && child[|child| - 1] == names[i];
    forall k | 0 <= k < i ensures names[k] != names[i] {
      assert Less(names[k], names[i]);
      LessTotal(names[k], names[i]);
    }
    assert names[i] !in names[..i];
  }

  lemma ChildrenPushed(reached: set<seq<string>>, directory: seq<string>, names: seq<string>, i: nat)
    requires i < |names| && ChildrenFrom(reached, directory, names[..i])
    ensures ChildrenFrom(reached + {directory + [names[i]]}, directory, names[..i + 1])
  {
    assert names[..i + 1] == names[..i] + [names[i]];
  }

  lemma PushQueue(c: Contract, pending: seq<seq<string>>, reached: set<seq<string>>, expanded: set<seq<string>>,
                  directory: seq<string>, names: seq<string>, i: nat)
    requires Queue(c, pending, reached, expanded) && directory in expanded && directory in reached
    requires i < |names| && StrictlySorted(names) && PlainPart(names[i]) && ChildrenFrom(reached, directory, names[..i])
    requires Relative(directory + [names[i]]) in c.allowedDirectories
    ensures var child := directory + [names[i]];
      && Queue(c, pending + [child], reached + {child}, expanded)
      && ChildrenFrom(reached + {child}, directory, names[..i + 1])
      && Room(c, reached + {child}) < Room(c, reached)
  {
    hide Room, Relative, ChildrenFrom, PlainPart;
    var child := directory + [names[i]];
    NewChild(reached, directory, names, i);
    ChildrenPushed(reached, directory, names, i);
    assert Parent(child) == directory;
    assert PlainParts(child);
    NewText(reached, child);
    LessRoom(c, reached, child);
  }

  lemma NewText(reached: set<seq<string>>, child: seq<string>)
    requires child != [] && child !in reached && PlainParts(child) && forall path :: path in reached ==> PlainParts(path)
    ensures Relative(child) !in Texts(reached)
  {
    hide Relative, PlainParts;
    forall path | path in reached ensures Relative(path) != Relative(child) {
      if Relative(path) == Relative(child) { RelativeInjective(path, child); }
    }
  }

  lemma LessRoom(c: Contract, reached: set<seq<string>>, child: seq<string>)
    requires child != [] && Relative(child) in c.allowedDirectories && Relative(child) !in Texts(reached)
    ensures Room(c, reached + {child}) < Room(c, reached)
  {
    hide Relative;
    var before, after := c.allowedDirectories - Texts(reached), c.allowedDirectories - Texts(reached + {child});
    assert Texts(reached + {child}) == Texts(reached) + {Relative(child)};
    assert after == before - {Relative(child)};
    assert Relative(child) in before;
  }

  // ---------- One visit ----------

  /** A regular file of this size was seen at the path. */
  ghost predicate Sighted(tree: Tree, steps: nat, text: string, size: nat) {
    exists t: nat, path: seq<string>, mode: nat :: t <= steps && Relative(path) == text && HoldsFile(Seen(tree, t, path), mode, size)
  }

  ghost predicate AllSighted(tree: Tree, steps: nat, c: Contract, files: map<string, bytes>) {
    forall text :: text in files ==> text in c.expectedFiles && Sighted(tree, steps, text, |files[text]|)
  }

  /** What the manifest says whatever changed meanwhile: every expected file once, in order, each seen with its size. */
  ghost predicate Lists(tree: Tree, steps: nat, c: Contract, m: seq<ManifestEntry>) {
    && StrictlySorted(RelativeTexts(m))
    && (forall text :: text in RelativeTexts(m) <==> text in c.expectedFiles)
    && (forall i :: 0 <= i < |m| ==> Sighted(tree, steps, m[i].relative, m[i].size))
  }

  lemma SightedLater(tree: Tree, before: nat, steps: nat, c: Contract, files: map<string, bytes>)
    requires AllSighted(tree, before, c, files) && before <= steps
    ensures AllSighted(tree, steps, c, files)
  {
    hide Relative, Seen;
    forall text | text in files ensures text in c.expectedFiles && Sighted(tree, steps, text, |files[text]|) {
      assert Sighted(tree, before, text, |files[text]|);
    }
  }

  lemma AddSighted(tree: Tree, steps: nat, end: nat, c: Contract, files: map<string, bytes>, path: seq<string>, read: SourceFile)
    requires AllSighted(tree, steps, c, files) && steps <= end && Relative(path) in c.expectedFiles
    requires exists t: nat :: t <= end && HoldsFile(Seen(tree, t, path), read.mode, |read.payload|)
    ensures AllSighted(tree, end, c, files[Relative(path) := read.payload])
  {
    hide Relative, Seen;
    SightedLater(tree, steps, end, c, files);
    var t: nat :| t <= end && HoldsFile(Seen(tree, t, path), read.mode, |read.payload|);
    assert Sighted(tree, end, Relative(path), |read.payload|);
  }

  /** While nothing has changed: the directory is being read, and these are its names. */
  ghost predicate Reading(tree: Tree, steps: nat, c: Contract, directory: seq<string>, names: seq<string>) {
    Steady(tree, steps) ==>
      tree(0).Some? && DirectoryOk(tree(0).value, c, directory) &&
      forall name :: name in names ==> NodeAt(tree(0).value, directory + [name]).Some?
  }

  /** While nothing has changed: this is the entry of that name. */
  ghost predicate Entry(tree: Tree, steps: nat, c: Contract, directory: seq<string>, name: string, node: Node) {
    Steady(tree, steps) ==>
      tree(0).Some? && DirectoryOk(tree(0).value, c, directory) && NodeAt(tree(0).value, directory + [name]) == Some(node)
  }

  predicate Skipped(c: Contract, directory: seq<string>, name: string) { directory == [] && name in c.ignoredRoots }

  lemma RefuseRoot(tree: Tree, c: Contract)
    requires tree(0).None? || !tree(0).value.Dir?
    ensures tree(0).Some? ==> !Accepts(tree(0).value, c)
  {
  }

  lemma Begin(tree: Tree, c: Contract)
    requires tree(0).Some? && tree(0).value.Dir?
    ensures OnCourse(tree, 0, c, map[], [[]], [], []) && AllSighted(tree, 0, c, map[])
    ensures Queue(c, [[]], {[]}, {})
  {
    forall path | Visible(tree(0).value, c, path) ensures UnderPending([[]], path) {
      assert Extends([[]][0], path);
    }
  }

  lemma TopSeen(tree: Tree, before: nat, steps: nat, c: Contract, files: map<string, bytes>, whole: seq<seq<string>>)
    requires before <= steps && whole != [] && OnCourse(tree, before, c, files, whole, [], [])
    ensures var node := Seen(tree, steps, whole[|whole| - 1]);
      Steady(tree, steps) ==> node.Some? && node.value.Dir? && node == Seen(tree, 0, whole[|whole| - 1])
  {
    hide Covered, FilesOk, NodeAt;
    SteadyBefore(tree, before, steps);
    SeenSteady(tree, steps, steps, whole[|whole| - 1]);
    if Steady(tree, steps) { assert DirectoryOk(tree(0).value, c, whole[|whole| - 1]); }
  }

  lemma StartDirectory(tree: Tree, before: nat, steps: nat, c: Contract, files: map<string, bytes>, whole: seq<seq<string>>,
                       names: seq<string>)
    requires before <= steps && whole != [] && OnCourse(tree, before, c, files, whole, [], [])
    requires var node := Seen(tree, steps, whole[|whole| - 1]);
      node.Some? && node.value.Dir? && names == SortKeys(node.value.children.Keys)
    ensures OnCourse(tree, steps, c, files, whole[..|whole| - 1], whole[|whole| - 1], names[0..])
    ensures Reading(tree, steps, c, whole[|whole| - 1], names)
  {
    hide SortKeys;
    var directory := whole[|whole| - 1];
    assert names[0..] == names;
    TopSeen(tree, before, steps, c, files, whole);
    SteadyBefore(tree, before, steps);
    if Steady(tree, steps) {
      var root := tree(0).value;
      StartCovered(root, c, files, whole, names);
      forall name | name in names ensures NodeAt(root, directory + [name]).Some? {
        NodeAtChild(root, directory, name);
      }
    }
  }

  lemma StartCovered(root: Node, c: Contract, files: map<string, bytes>, whole: seq<seq<string>>, names: seq<string>)
    requires whole != [] && DirectoryOk(root, c, whole[|whole| - 1]) && Covered(root, c, files, whole, [], [])
    requires names == SortKeys(NodeAt(root, whole[|whole| - 1]).value.children.Keys)
    ensures Covered(root, c, files, whole[..|whole| - 1], whole[|whole| - 1], names)
  {
    var directory, pending := whole[|whole| - 1], whole[..|whole| - 1];
    forall path | Visible(root, c, path)
      ensures Settled(root, c, files, path) || UnderPending(pending, path) || Waiting(directory, names, path)
    {
      if !Settled(root, c, files, path) {
        var k :| 0 <= k < |whole| && Extends(whole[k], path);
        if k < |pending| {
          assert pending[k] == whole[k];
        } else {
          NodeAtPrefix(root, path, |directory|);
        }
      }
    }
  }

  lemma NamesArePlain(tree: Tree, t: nat, directory: seq<string>)
    requires tree(t).Some? ==> Named(tree(t).value)
    requires Seen(tree, t, directory).Some? && Seen(tree, t, directory).value.Dir?
    ensures forall name :: name in SortKeys(Seen(tree, t, directory).value.children.Keys) ==> PlainPart(name)
  {
    NamesOnPath(tree(t).value, directory);
  }

  lemma ChildSeen(tree: Tree, before: nat, steps: nat, c: Contract, directory: seq<string>, names: seq<string>, i: nat)
    requires before <= steps && i < |names| && Reading(tree, before, c, directory, names)
    ensures var entry := Seen(tree, steps, directory + [names[i]]);
      && (Steady(tree, steps) ==> entry.Some?)
      && (entry.Some? ==> Entry(tree, steps, c, directory, names[i], entry.value))
  {
    hide NodeAt, DirectoryOk;
    SteadyBefore(tree, before, steps);
    SeenSteady(tree, steps, steps, directory + [names[i]]);
    assert names[i] in names;
  }

  lemma ReadSteady(tree: Tree, steps: nat, end: nat, path: seq<string>)
    requires steps < end
    ensures Steady(tree, end) ==> SameNode(tree, steps + 1, end, path) && Seen(tree, steps + 1, path) == Seen(tree, steps, path)
  {
  }

  lemma Refuse(tree: Tree, steps: nat, c: Contract, directory: seq<string>, name: string, node: Node)
    requires Entry(tree, steps, c, directory, name, node)
    requires match node
      case Dir(_, _, _) => !Skipped(c, directory, name) && Relative(directory + [name]) !in c.allowedDirectories
      case File(_, _, _) => Relative(directory + [name]) !in c.expectedFiles
      case _ => true
    ensures Steady(tree, steps) ==> tree(0).Some? && !Accepts(tree(0).value, c)
  {
    hide Relative;
    if Steady(tree, steps) {
      ChildVisible(tree(0).value, c, directory, name);
      assert !Allowed(tree(0).value, c, directory + [name]);
    }
  }

  /** The end of one round of the inner loop. */
  lemma MoveOn(tree: Tree, before: nat, steps: nat, c: Contract, files: map<string, bytes>, files': map<string, bytes>,
               pending: seq<seq<string>>, pending': seq<seq<string>>, directory: seq<string>, names: seq<string>, i: nat, node: Node)
    requires before <= steps && i < |names| && (tree(0).Some? ==> Named(tree(0).value))
    requires OnCourse(tree, before, c, files, pending, directory, names[i..]) && Reading(tree, before, c, directory, names)
    requires Entry(tree, steps, c, directory, names[i], node)
    requires var child := directory + [names[i]];
      match node
      case Dir(_, _, _) =>
        files' == files &&
        (if Skipped(c, directory, names[i]) then pending' == pending
         else Relative(child) in c.allowedDirectories && pending' == pending + [child])
      case File(_, _, content) =>
        pending' == pending && Relative(child) in c.expectedFiles &&
        (Steady(tree, steps) ==> files' == files[Relative(child) := content])
      case _ => false
    ensures OnCourse(tree, steps, c, files', pending', directory, names[i + 1..])
    ensures Reading(tree, steps, c, directory, names)
  {
    hide NodeAt, Relative, Covered, FilesOk, DirectoryOk, Visible;
    SteadyBefore(tree, before, steps);
    if Steady(tree, steps) {
      var root, child := tree(0).value, directory + [names[i]];
      ChildVisible(root, c, directory, names[i]);
      assert names[i..][0] == names[i] && names[i..][1..] == names[i + 1..];
      NextName(root, c, files, files', pending, pending', directory, names[i..]);
      if node.File? {
        AddFile(root, c, files, child);
      } else if !Skipped(c, directory, names[i]) {
        assert DirectoryOk(root, c, child) by { VisibleDirectory(root, c, child); }
      }
    }
  }

  lemma VisibleDirectory(root: Node, c: Contract, path: seq<string>)
    requires Visible(root, c, path) && NodeAt(root, path).value.Dir?
    ensures DirectoryOk(root, c, path)
  {
  }

  lemma ChildrenFromMore(reached: set<seq<string>>, directory: seq<string>, names: seq<string>, i: nat)
    requires i < |names| && ChildrenFrom(reached, directory, names[..i])
    ensures ChildrenFrom(reached, directory, names[..i + 1])
  {
    assert forall k :: 0 <= k < i ==> names[..i + 1][k] == names[..i][k];
  }

  lemma EndDirectory(tree: Tree, steps: nat, c: Contract, files: map<string, bytes>, pending: seq<seq<string>>, directory: seq<string>)
    requires OnCourse(tree, steps, c, files, pending, directory, [])
    ensures OnCourse(tree, steps, c, files, pending, [], [])
  {
  }

  /** One visit by an explicit stack. It ends, however the tree changes. If the tree did not change and no call
      failed, it succeeds exactly for accepted trees, and its result is their manifest. */
  method SourceManifest(tree: Tree, c: Contract, sha256: Digest)
    returns (r: Result<seq<ManifestEntry>, SourceError>, steps: nat, ghost failed: bool)
    requires forall t: nat :: tree(t).Some? ==> Named(tree(t).value)
    ensures failed ==> r.Err?
    ensures r.Ok? ==> Lists(tree, steps, c, r.value)
    ensures Steady(tree, steps) && !failed ==> (r.Ok? <==> tree(0).Some? && Accepts(tree(0).value, c))
    ensures Steady(tree, steps) && r.Ok? ==> tree(0).Some? && IsManifest(tree(0).value, c, sha256, r.value)
  {
    hide Accepts, Covered, FilesOk, PendingOk, DirectoryOk, Visible, NodeAt, IsManifest, Relative, Room, SortKeys, Queue,
         ChildrenFrom, OnCourse, AllSighted, Lists, Steady, Seen, Named, Reading, Entry, SameNode, HoldsFile, PlainPart,
         StrictlySorted, Sighted, Allowed, Parent, Texts;
    steps, failed := 0, false;
    var fault: bool := *;
    if fault {
      failed := true;
      return Err(Unavailable), steps, failed;
    }
    if tree(0).None? || !tree(0).value.Dir? {
      RefuseRoot(tree, c);
      return Err(RootNotDirectory), steps, failed;
    }
    var files: map<string, bytes> := map[];
    var pending: seq<seq<string>> := [[]];
    ghost var reached: set<seq<string>>, expanded: set<seq<string>> := {[]}, {};
    Begin(tree, c);
    while pending != []
      invariant OnCourse(tree, steps, c, files, pending, [], []) && AllSighted(tree, steps, c, files)
      invariant Queue(c, pending, reached, expanded) && !failed
      decreases Room(c, reached), |pending|
    {
      ghost var room, whole, before := Room(c, reached), pending, steps;
      var directory := pending[|pending| - 1];
      PopQueue(c, pending, reached, expanded);
      pending := pending[..|pending| - 1];
      expanded := expanded + {directory};
      steps := steps + 1;
      fault := *;
      if fault {
        failed := true;
        return Err(Unavailable), steps, failed;
      }
      var listed := Seen(tree, steps, directory);
      TopSeen(tree, before, steps, c, files, whole);
      if listed.None? || !listed.value.Dir? {
        return Err(Unavailable), steps, failed;
      }
      var names := SortKeys(listed.value.children.Keys);
      StartDirectory(tree, before, steps, c, files, whole, names);
      SightedLater(tree, before, steps, c, files);
      NamesArePlain(tree, steps, directory);
      for i := 0 to |names|
        invariant OnCourse(tree, steps, c, files, pending, directory, names[i..]) && AllSighted(tree, steps, c, files)
        invariant Reading(tree, steps, c, directory, names) && !failed
        invariant Queue(c, pending, reached, expanded) && ChildrenFrom(reached, directory, names[..i])
        invariant directory in reached && directory in expanded
        invariant Room(c, reached) <= room && (Room(c, reached) == room ==> |pending| < |whole|)
      {
        var name := names[i];
        var relative := directory + [name];
        var text := Relative(relative);
        ghost var files0, pending0, start := files, pending, steps;
        steps := steps + 1;
        fault := *;
        if fault {
          failed := true;
          return Err(Unavailable), steps, failed;
        }
        var entry := Seen(tree, steps, relative);
        ChildSeen(tree, start, steps, c, directory, names, i);
        if entry.None? {
          return Err(Unavailable), steps, failed;
        }
        SightedLater(tree, start, steps, c, files);
        ChildrenFromMore(reached, directory, names, i);
        match entry.value {
          case Symlink(_, _, _) =>
            Refuse(tree, steps, c, directory, name, entry.value);
            return Err(IsSymlink), steps, failed;
          case Dir(_, _, _) =>
            if !Skipped(c, directory, name) {
              if text !in c.allowedDirectories {
                Refuse(tree, steps, c, directory, name, entry.value);
                return Err(UnexpectedDirectory), steps, failed;
              }
              PushQueue(c, pending, reached, expanded, directory, names, i);
              reached := reached + {relative};
              pending := pending + [relative];
            }
          case Other(_, _) =>
            Refuse(tree, steps, c, directory, name, entry.value);
            return Err(NotRegular), steps, failed;
          case File(_, _, _) =>
            if text !in c.expectedFiles {
              Refuse(tree, steps, c, directory, name, entry.value);
              return Err(UnexpectedFile), steps, failed;
            }
            var read, end, lost := ReadRegularFile(tree, relative, steps + 1);
            ReadSteady(tree, steps, end, relative);
            EntrySeen(tree, steps, end, c, directory, name, entry.value);
            ghost var looked := steps;
            steps, failed := end, lost;
            if read.None? {
              return Err(Unavailable), steps, failed;
            }
            AddSighted(tree, looked, steps, c, files, relative, read.value);
            files := files[text := read.value.payload];
        }
        MoveOn(tree, start, steps, c, files0, files, pending0, pending, directory, names, i, entry.value);
      }
      assert names[|names|..] == [];
      EndDirectory(tree, steps, c, files, pending, directory);
    }
    if c.expectedFiles - files.Keys != {} {
      MissingMeansRefused(tree, steps, c, files);
      return Err(MissingFiles), steps, failed;
    }
    Complete(tree, steps, c, sha256, files);
    r := Ok(ManifestOf(files, SortKeys(files.Keys), sha256));
  }

  lemma EntrySeen(tree: Tree, steps: nat, end: nat, c: Contract, directory: seq<string>, name: string, node: Node)
    requires steps < end && Entry(tree, steps, c, directory, name, node)
    ensures Entry(tree, end, c, directory, name, node)
    ensures Steady(tree, end) ==> Seen(tree, steps + 1, directory + [name]) == Some(node)
  {
    hide NodeAt, DirectoryOk;
    SteadyBefore(tree, steps, end);
    SeenSteady(tree, end, steps + 1, directory + [name]);
  }

  lemma MissingMeansRefused(tree: Tree, steps: nat, c: Contract, files: map<string, bytes>)
    requires OnCourse(tree, steps, c, files, [], [], []) && c.expectedFiles - files.Keys != {}
    ensures Steady(tree, steps) ==> tree(0).Some? && !Accepts(tree(0).value, c)
  {
    if Steady(tree, steps) {
      var root := tree(0).value;
      var text :| text in c.expectedFiles && text !in files;
      forall path ensures !PresentFile(root, c, path, text) {
      }
    }
  }

  lemma Complete(tree: Tree, steps: nat, c: Contract, sha256: Digest, files: map<string, bytes>)
    requires OnCourse(tree, steps, c, files, [], [], []) && AllSighted(tree, steps, c, files)
    requires tree(0).Some? && tree(0).value.Dir? && Named(tree(0).value) && c.expectedFiles - files.Keys == {}
    ensures var m := ManifestOf(files, SortKeys(files.Keys), sha256);
      && Lists(tree, steps, c, m)
      && (Steady(tree, steps) ==> Accepts(tree(0).value, c) && IsManifest(tree(0).value, c, sha256, m))
  {
    hide Visible, NodeAt, Allowed, Relative, SortKeys, Less, Sighted;
    assert forall text :: text in c.expectedFiles && text !in files ==> text in c.expectedFiles - files.Keys;
    assert files.Keys == c.expectedFiles;
    ListsExpected(tree, steps, c, sha256, files);
    if Steady(tree, steps) {
      CompleteTree(tree(0).value, c, files);
      SortedManifest(tree(0).value, c, sha256, files);
    }
  }

  lemma ListsExpected(tree: Tree, steps: nat, c: Contract, sha256: Digest, files: map<string, bytes>)
    requires AllSighted(tree, steps, c, files) && files.Keys == c.expectedFiles
    ensures Lists(tree, steps, c, ManifestOf(files, SortKeys(files.Keys), sha256))
  {
    hide SortKeys, Less, Sighted;
    var keys := SortKeys(files.Keys);
    assert RelativeTexts(ManifestOf(files, keys, sha256)) == keys;
  }

  lemma CompleteTree(root: Node, c: Contract, files: map<string, bytes>)
    requires root.Dir? && FilesOk(root, c, files) && files.Keys == c.expectedFiles
    requires forall path :: Visible(root, c, path) ==> Settled(root, c, files, path)
    ensures Accepts(root, c)
  {
    hide Visible, NodeAt, Allowed, Relative;
    forall text | text in c.expectedFiles ensures exists path :: PresentFile(root, c, path, text) {
      assert text in files;
    }
  }

  lemma SortedManifest(root: Node, c: Contract, sha256: Digest, files: map<string, bytes>)
    requires files.Keys == c.expectedFiles
    requires forall path :: Visible(root, c, path) ==> Settled(root, c, files, path)
    ensures IsManifest(root, c, sha256, ManifestOf(files, SortKeys(files.Keys), sha256))
  {
    hide Visible, NodeAt, Allowed, Relative, SortKeys, Less;
    var keys := SortKeys(files.Keys);
    var m := ManifestOf(files, keys, sha256);
    assert |keys| == |files.Keys|;
    forall i, path | 0 <= i < |m| && PresentFile(root, c, path, m[i].relative)
      ensures m[i].size == |NodeAt(root, path).value.content| && m[i].digest == sha256(NodeAt(root, path).value.content)
    {
      assert Settled(root, c, files, path);
    }
  }

  // ---------- The manifest determines the files ----------

  /** The manifest of an accepted tree does not depend on the visiting order: there is only one. */
  lemma ManifestUnique(root: Node, c: Contract, sha256: Digest, m: seq<ManifestEntry>, m': seq<ManifestEntry>)
    requires Accepts(root, c) && IsManifest(root, c, sha256, m) && IsManifest(root, c, sha256, m')
    ensures m == m'
  {
    hide Visible, Allowed, NodeAt, Relative;
    Relatives(root, c, sha256, m);
    Relatives(root, c, sha256, m');
    SortedUnique(RelativeTexts(m), RelativeTexts(m'));
    forall i | 0 <= i < |m| ensures m[i] == m'[i] {
      assert RelativeTexts(m)[i] == RelativeTexts(m')[i];
      var path :| PresentFile(root, c, path, m[i].relative);
      assert PresentFile(root, c, path, m'[i].relative);
    }
  }

  function RelativeTexts(m: seq<ManifestEntry>): (texts: seq<string>)
    ensures |texts| == |m| && forall i :: 0 <= i < |m| ==> texts[i] == m[i].relative
  {
    seq(|m|, i requires 0 <= i < |m| => m[i].relative)
  }

  lemma Relatives(root: Node, c: Contract, sha256: Digest, m: seq<ManifestEntry>)
    requires IsManifest(root, c, sha256, m)
    ensures StrictlySorted(RelativeTexts(m))
    ensures forall text :: text in RelativeTexts(m) <==> text in c.expectedFiles
  {
    var texts := RelativeTexts(m);
    assert StrictlySorted(texts);
    var keys := set text | text in texts;
    DistinctCount(texts);
    SubsetOfSameSize(keys, c.expectedFiles);
  }

  lemma {:induction false} DistinctCount(texts: seq<string>)
    requires StrictlySorted(texts)
    ensures |set text | text in texts| == |texts|
  {
    if texts != [] {
      DistinctCount(texts[1..]);
      TailExcludesHead(texts);
      assert (set text | text in texts) == {texts[0]} + (set text | text in texts[1..]);
    }
  }

  lemma SubsetOfSameSize(a: set<string>, b: set<string>)
    requires a <= b && |a| == |b|
    ensures a == b
  {
    assert |b - a| == |b| - |a|;
  }

  /** Two accepted trees with one manifest hold the same bytes in every source file. */
  lemma SameManifestSameFiles(root: Node, root': Node, c: Contract, sha256: Digest, m: seq<ManifestEntry>,
                              text: string, path: seq<string>, path': seq<string>)
    requires Injective(sha256) && Named(root) && Named(root')
    requires Accepts(root, c) && Accepts(root', c) && IsManifest(root, c, sha256, m) && IsManifest(root', c, sha256, m)
    requires PresentFile(root, c, path, text) && PresentFile(root', c, path', text)
    ensures path == path' && NodeAt(root, path).value.content == NodeAt(root', path').value.content
  {
    NamesOnPath(root, path);
    NamesOnPath(root', path');
    RelativeInjective(path, path');
    Relatives(root, c, sha256, m);
    assert Allowed(root, c, path);
    assert text in RelativeTexts(m);
    var i :| 0 <= i < |m| && RelativeTexts(m)[i] == text;
    assert PresentFile(root, c, path, m[i].relative) && PresentFile(root', c, path', m[i].relative);
  }

  // ---------- Acceptance in words ----------

  /** The path leads to or through a top-level directory that is skipped. */
  predicate InSkipped(root: Node, c: Contract, path: seq<string>)
    requires path != []
  {
    root.Dir? && path[0] in root.children && root.children[path[0]].Dir? && path[0] in c.ignoredRoots
  }

  predicate Expected(c: Contract, node: Node, name: string) {
    (node.Dir? && name in c.allowedDirectories) || (node.File? && name in c.expectedFiles)
  }

  ghost predicate HasFile(root: Node, c: Contract, name: string) {
    exists path :: path != [] && NodeAt(root, path).Some? && !InSkipped(root, c, path)
                   && NodeAt(root, path).value.File? && Join(path) == name
  }

  /** Accepted are the directories in which every node outside the skipped top-level directories is an allowed directory
      or an expected file under its joined name, and every expected file is there. */
  lemma AcceptsInWords(root: Node, c: Contract)
    ensures Accepts(root, c) <==>
            && root.Dir?
            && (forall path :: path != [] && NodeAt(root, path).Some? && !InSkipped(root, c, path) ==>
                  Expected(c, NodeAt(root, path).value, Join(path)))
            && forall name :: name in c.expectedFiles ==> HasFile(root, c, name)
  {
    hide Accepts;
    if root.Dir? {
      forall path ensures Visible(root, c, path) <==> path != [] && NodeAt(root, path).Some? && !InSkipped(root, c, path) {
        VisibleIff(root, c, path);
      }
      forall name ensures HasFile(root, c, name) <==> exists path :: PresentFile(root, c, path, name) { HasFileIff(root, c, name); }
    }
    AcceptsUnfolds(root, c);
  }

  lemma VisibleIff(root: Node, c: Contract, path: seq<string>)
    ensures Visible(root, c, path) <==> path != [] && NodeAt(root, path).Some? && !InSkipped(root, c, path)
  {
    if path != [] {
      var top := [path[0]];
      assert top[1..] == [];
      if root.Dir? && path[0] in root.children { assert NodeAt(root, top) == NodeAt(root.children[path[0]], []); }
    }
  }

  lemma HasFileIff(root: Node, c: Contract, name: string)
    ensures HasFile(root, c, name) <==> exists path :: PresentFile(root, c, path, name)
  {
    forall path ensures Visible(root, c, path) <==> path != [] && NodeAt(root, path).Some? && !InSkipped(root, c, path) {
      VisibleIff(root, c, path);
    }
    hide Visible, InSkipped, NodeAt, Join;
    if path :| PresentFile(root, c, path, name) { assert Relative(path) == Join(path); }
    if path :| path != [] && NodeAt(root, path).Some? && !InSkipped(root, c, path)
               && NodeAt(root, path).value.File? && Join(path) == name
    {
      assert PresentFile(root, c, path, name);
    }
  }

  lemma AcceptsUnfolds(root: Node, c: Contract)
    ensures Accepts(root, c) <==>
            && root.Dir? && (forall path :: Visible(root, c, path) ==> Expected(c, NodeAt(root, path).value, Join(path)))
            && (forall name :: name in c.expectedFiles ==> exists path :: PresentFile(root, c, path, name))
  {
    hide NodeAt, Join;
    forall path | Visible(root, c, path) ensures Allowed(root, c, path) <==> Expected(c, NodeAt(root, path).value, Join(path)) {
      assert path != [];
    }
  }
}
