/** `_copy_contract`: copy an accepted source tree to a fresh destination, or leave nothing behind. The source
    may change between any two steps; nobody else writes at the destination. */
module CopyContract {
  import opened Bytes
  import opened Wrappers
  import opened TextOrder
  import opened PosixPath
  import opened FileTree
  import opened SourceManifest

  type Path = seq<string>

  datatype CopyError =
    | SourceUnavailable | DestinationExists | ParentUnavailable | Nested | SourceRefused
    | ChangedWhileCopying | CannotWrite | SourceChanged | CopyNotExact

  predicate Prefix(a: Path, b: Path) { |a| <= |b| && b[..|a|] == a }

  predicate Comparable(a: Path, b: Path) { Prefix(a, b) || Prefix(b, a) }

  // ---------- Changing one node of a tree ----------

  predicate CanSet(root: Node, path: Path) {
    path == [] ||
    (root.Dir? && (|path| == 1 || (path[0] in root.children && CanSet(root.children[path[0]], path[1..]))))
  }

  function SetAt(root: Node, path: Path, node: Node): Node
    requires CanSet(root, path)
  {
    if path == [] then node
    else if |path| == 1 then root.(children := root.children[path[0] := node])
    else root.(children := root.children[path[0] := SetAt(root.children[path[0]], path[1..], node)])
  }

  function RemoveAt(root: Node, path: Path): Node
    requires path != [] && NodeAt(root, path).Some?
  {
    if |path| == 1 then root.(children := root.children - {path[0]})
    else root.(children := root.children[path[0] := RemoveAt(root.children[path[0]], path[1..])])
  }

  predicate IsDirectory(root: Node, path: Path) { NodeAt(root, path).Some? && NodeAt(root, path).value.Dir? }

  lemma {:induction false} SetInside(root: Node, path: Path, node: Node, other: Path)
    requires CanSet(root, path) && Prefix(path, other)
    ensures NodeAt(SetAt(root, path, node), other) == NodeAt(node, other[|path|..])
  {
    hide Prefix;
    if path == [] {
      assert other[0..] == other;
    } else {
      PrefixTails(path, other);
      SetChild(root, path, node);
      var next := SetAt(root, path, node);
      assert NodeAt(next, other) == NodeAt(next.children[path[0]], other[1..]);
      if |path| > 1 {
        SetInside(root.children[path[0]], path[1..], node, other[1..]);
      }
    }
  }

  lemma SetChild(root: Node, path: Path, node: Node)
    requires CanSet(root, path) && path != []
    ensures var next := SetAt(root, path, node);
      next.Dir? && path[0] in next.children &&
      next.children[path[0]] == (if |path| == 1 then node else SetAt(root.children[path[0]], path[1..], node))
  {
  }

  lemma PrefixTails(path: Path, other: Path)
    requires path != [] && Prefix(path, other)
    ensures other != [] && path[0] == other[0] && Prefix(path[1..], other[1..])
    ensures other[|path|..] == other[1..][|path| - 1..]
    ensures |path| == 1 ==> other[|path|..] == other[1..]
  {
    assert other[..|path|][0] == other[0];
    TailsComparable(path, other);
  }

  lemma {:induction false} SetOutside(root: Node, path: Path, node: Node, other: Path)
    requires CanSet(root, path) && !Comparable(path, other)
    ensures NodeAt(SetAt(root, path, node), other) == NodeAt(root, other)
  {
    if path != [] && other != [] && path[0] == other[0] {
      TailsComparable(path, other);
      if |path| > 1 { SetOutside(root.children[path[0]], path[1..], node, other[1..]); }
    }
  }

  lemma {:induction false} SetAbove(root: Node, path: Path, node: Node, other: Path)
    requires CanSet(root, path) && Prefix(other, path) && other != path
    ensures IsDirectory(root, other) && IsDirectory(SetAt(root, path, node), other)
  {
    if other != [] {
      TailsComparable(path, other);
      assert |path| > 1;
      SetAbove(root.children[path[0]], path[1..], node, other[1..]);
    }
  }

  /** Setting a node puts it there, leaves the directories on the way directories, and changes no node elsewhere. */
  lemma SetChanges(root: Node, path: Path, node: Node, other: Path)
    requires CanSet(root, path)
    ensures NodeAt(SetAt(root, path, node), path) == Some(node)
    ensures !Comparable(path, other) ==> NodeAt(SetAt(root, path, node), other) == NodeAt(root, other)
    ensures Prefix(path, other) ==> NodeAt(SetAt(root, path, node), other) == NodeAt(node, other[|path|..])
    ensures Prefix(other, path) && other != path ==> IsDirectory(root, other) && IsDirectory(SetAt(root, path, node), other)
  {
    hide SetAt, CanSet;
    SetInside(root, path, node, path);
    if Prefix(path, other) { SetInside(root, path, node, other); }
    else if Prefix(other, path) { SetAbove(root, path, node, other); }
    else { SetOutside(root, path, node, other); }
  }

  lemma TailsComparable(a: Path, b: Path)
    requires a != [] && b != [] && a[0] == b[0]
    ensures Prefix(a, b) <==> Prefix(a[1..], b[1..])
    ensures Prefix(b, a) <==> Prefix(b[1..], a[1..])
    ensures Prefix(a, b) ==> b[|a|..] == b[1..][|a| - 1..]
    ensures a == b <==> a[1..] == b[1..]
  {
    assert a == [a[0]] + a[1..] && b == [b[0]] + b[1..];
    if |a| <= |b| { assert b[..|a|] == [b[0]] + b[1..][..|a| - 1]; }
    if |b| <= |a| { assert a[..|b|] == [a[0]] + a[1..][..|b| - 1]; }
  }

  /** What is comparable with a path below `base` is comparable with `base`. */
  lemma ComparableBelow(base: Path, path: Path, other: Path)
    requires Comparable(base + path, other)
    ensures Comparable(base, other)
  {
    var full := base + path;
    assert full[..|base|] == base;
    if Prefix(full, other) { assert other[..|base|] == full[..|base|]; }
    else if |other| >= |base| { assert other[..|base|] == full[..|other|][..|base|]; }
    else { assert base[..|other|] == full[..|other|]; }
  }

  lemma {:induction false} RemoveChanges(root: Node, path: Path, other: Path)
    requires path != [] && NodeAt(root, path).Some?
    ensures NodeAt(RemoveAt(root, path), path) == None
    ensures !Comparable(path, other) ==> NodeAt(RemoveAt(root, path), other) == NodeAt(root, other)
    ensures Prefix(other, path) && other != path ==> IsDirectory(RemoveAt(root, path), other)
  {
    if |path| > 1 {
      if other != [] && path[0] == other[0] {
        RemoveChanges(root.children[path[0]], path[1..], other[1..]);
        TailsComparable(path, other);
      } else {
        RemoveChanges(root.children[path[0]], path[1..], []);
      }
    }
  }

  /** Setting a node below a directory sets it in that directory's subtree. */
  lemma {:induction false} SetBelow(root: Node, base: Path, path: Path, node: Node)
    requires NodeAt(root, base).Some? && CanSet(NodeAt(root, base).value, path)
    ensures CanSet(root, base + path)
    ensures NodeAt(SetAt(root, base + path, node), base) == Some(SetAt(NodeAt(root, base).value, path, node))
  {
    if base == [] {
      assert [] + path == path;
    } else {
      SetBelow(root.children[base[0]], base[1..], path, node);
      assert (base + path)[1..] == base[1..] + path && (base + path)[0] == base[0];
      if |base + path| == 1 { assert base == [base[0]] && path == [] && base[1..] == []; }
    }
  }

  lemma {:induction false} CanSetIn(root: Node, path: Path)
    requires path != [] ==> IsDirectory(root, path[..|path| - 1])
    ensures CanSet(root, path)
  {
    if |path| > 1 {
      var dir := path[..|path| - 1];
      assert dir[1..] == path[1..][..|path| - 2];
      CanSetIn(root.children[path[0]], path[1..]);
    }
  }

  lemma {:induction false} SetKeepsNames(root: Node, path: Path, node: Node)
    requires CanSet(root, path) && Named(root) && Named(node) && PlainParts(path)
    ensures Named(SetAt(root, path, node))
  {
    if |path| > 1 {
      SetKeepsNames(root.children[path[0]], path[1..], node);
    } else if |path| == 1 {
      assert PlainPart(path[0]);
    }
  }

  lemma {:induction false} SetTwice(root: Node, path: Path, first: Node, second: Node)
    requires CanSet(root, path)
    ensures CanSet(SetAt(root, path, first), path)
    ensures SetAt(SetAt(root, path, first), path, second) == SetAt(root, path, second)
  {
    if |path| > 1 {
      SetTwice(root.children[path[0]], path[1..], first, second);
    }
  }

  const MODE_755: nat := 0x1ED

  function NewDirectory(): Node { Dir(MODE_755, 0, map[]) }

  /** `mkdir(parents=True, exist_ok=True)`: `None` when something on the way is not a directory. */
  function WithDirectories(root: Node, path: Path): Option<Node>
    decreases |path|
  {
    if NodeAt(root, path).Some? then (if NodeAt(root, path).value.Dir? then Some(root) else None)
    else
      match WithDirectories(root, path[..|path| - 1])
      case None => None
      case Some(up) => if CanSet(up, path) then Some(SetAt(up, path, NewDirectory())) else None
  }

  lemma DirectoryMade(root: Node, path: Path)
    requires WithDirectories(root, path).Some?
    ensures IsDirectory(WithDirectories(root, path).value, path)
  {
    if NodeAt(root, path).None? {
      SetChanges(WithDirectories(root, path[..|path| - 1]).value, path, NewDirectory(), []);
    }
  }

  /** Every directory has mode 0755: seven for the owner, five for the group and for others. */
  predicate DirModes(node: Node) {
    node.Dir? ==> node.mode == 7 * 64 + 5 * 8 + 5 && forall n :: n in node.children ==> DirModes(node.children[n])
  }

  lemma {:induction false} DirModesAt(root: Node, path: Path)
    requires DirModes(root) && IsDirectory(root, path)
    ensures NodeAt(root, path).value.mode == 7 * 64 + 5 * 8 + 5
  {
    if path != [] { DirModesAt(root.children[path[0]], path[1..]); }
  }

  lemma {:induction false} SetKeepsModes(root: Node, path: Path, node: Node)
    requires CanSet(root, path) && DirModes(root) && DirModes(node)
    ensures DirModes(SetAt(root, path, node))
  {
    if |path| > 1 { SetKeepsModes(root.children[path[0]], path[1..], node); }
  }

  lemma {:induction false} MadeModes(root: Node, path: Path)
    requires WithDirectories(root, path).Some? && DirModes(root)
    ensures DirModes(WithDirectories(root, path).value)
    decreases |path|
  {
    if NodeAt(root, path).None? {
      MadeModes(root, path[..|path| - 1]);
      SetKeepsModes(WithDirectories(root, path[..|path| - 1]).value, path, NewDirectory());
    }
  }

  lemma NewModes()
    ensures DirModes(NewDirectory())
  {
  }

  lemma WrittenModes(root: Node, path: Path, mode: nat, content: bytes)
    requires CanSet(root, path) && DirModes(root)
    ensures DirModes(SetAt(root, path, File(mode, |content|, content)))
  {
    SetKeepsModes(root, path, File(mode, |content|, content));
  }

  lemma RootIsThere(root: Node, path: Path)
    ensures NodeAt(root, path).None? ==> path != []
  {
  }

  lemma PlainPrefix(path: Path, n: nat)
    requires PlainParts(path) && n <= |path|
    ensures PlainParts(path[..n])
  {
  }

  lemma FileNamed(mode: nat, content: bytes)
    ensures Named(File(mode, |content|, content))
  {
  }

  lemma DirectoryNamed()
    ensures Named(NewDirectory())
  {
  }

  // ---------- One write at or below a base ----------

  /** What is needed to put a node at `base + path`. */
  predicate CanPut(root: Node, base: Path, path: Path)
    requires base != []
  {
    if path == [] then IsDirectory(root, base[..|base| - 1])
    else NodeAt(root, base).Some? && CanSet(NodeAt(root, base).value, path)
  }

  lemma PutAllowed(root: Node, base: Path, path: Path)
    requires base != [] && CanPut(root, base, path)
    ensures CanSet(root, base + path)
  {
    if path == [] {
      assert base + path == base;
      CanSetIn(root, base);
    } else {
      SetBelow(root, base, path, NewDirectory());
    }
  }

  lemma PutConfined(root: Node, base: Path, path: Path, node: Node)
    requires base != [] && CanSet(root, base + path)
    ensures forall p :: !Comparable(base, p) ==> NodeAt(SetAt(root, base + path, node), p) == NodeAt(root, p)
    ensures IsDirectory(SetAt(root, base + path, node), base[..|base| - 1])
  {
    var full, parent := base + path, base[..|base| - 1];
    forall p | !Comparable(base, p) ensures NodeAt(SetAt(root, full, node), p) == NodeAt(root, p) {
      if Comparable(full, p) { ComparableBelow(base, path, p); }
      SetChanges(root, full, node, p);
    }
    assert full[..|parent|] == parent;
    SetChanges(root, full, node, parent);
  }

  lemma PutNamed(root: Node, base: Path, path: Path, node: Node)
    requires Named(root) && Named(node) && PlainParts(base) && PlainParts(path) && CanSet(root, base + path)
    ensures Named(SetAt(root, base + path, node))
  {
    SetKeepsNames(root, base + path, node);
  }

  lemma PutSeen(root: Node, base: Path, path: Path, node: Node)
    requires base != [] && CanPut(root, base, path) && CanSet(root, base + path)
    ensures NodeAt(SetAt(root, base + path, node), base) ==
            Some(if path == [] then node else SetAt(NodeAt(root, base).value, path, node))
  {
    if path == [] {
      assert base + path == base;
      SetChanges(root, base, node, base);
    } else {
      SetBelow(root, base, path, node);
    }
  }

  lemma {:induction false} RemoveKeepsNames(root: Node, path: Path)
    requires path != [] && NodeAt(root, path).Some? && Named(root)
    ensures Named(RemoveAt(root, path))
  {
    if |path| > 1 { RemoveKeepsNames(root.children[path[0]], path[1..]); }
  }

  // ---------- The file system ----------

  /** The tree before and after one write of the copier. */
  datatype Write = Write(before: Node, after: Node)

  class FileSystem {
    var root: Node
    ghost var writes: seq<Write>
    ghost var history: seq<Node>  // every state so far, the last one being `root`
    ghost var faulted: bool  // some system call of the copier failed
    const source: Path
    const destination: Path

    constructor (root: Node, source: Path, destination: Path)
      requires destination != [] && PlainParts(destination) && Named(root)
      ensures this.root == root && this.source == source && this.destination == destination
      ensures writes == [] && history == [root] && !faulted && Valid()
    {
      this.root := root;
      this.source := source;
      this.destination := destination;
      writes := [];
      history := [root];
      faulted := false;
    }

    ghost function Copy(): Option<Node>
      reads this
    {
      NodeAt(root, destination)
    }

    ghost function Parent(): Path
      requires destination != []
    {
      destination[..|destination| - 1]
    }

    /** Every write so far left alone all nodes that are neither on, below nor above the destination, and its parent. */
    ghost predicate Valid()
      reads this
    {
      && destination != [] && PlainParts(destination) && Named(root)
      && history != [] && history[|history| - 1] == root
      && forall i :: 0 <= i < |writes| ==> Confined(writes[i])
    }

    ghost predicate Confined(w: Write)
      requires destination != []
    {
      && (forall p :: !Comparable(destination, p) ==> NodeAt(w.after, p) == NodeAt(w.before, p))
      && (IsDirectory(w.before, Parent()) ==> IsDirectory(w.after, Parent()))
    }

    /** Everybody else, for as long as the copier only looks: anything may change, except at the destination.
        The copier will see `seen(0)`, `seen(1)` and so on. */
    method Watch() returns (seen: nat -> Node)
      requires Valid()
      ensures seen(0) == root
      ensures forall t: nat :: Named(seen(t)) && NodeAt(seen(t), destination) == Copy()
    {
      var here, there := root, destination;
      var others: nat -> Node := *;
      seen := (t: nat) => if t > 0 && Named(others(t)) && NodeAt(others(t), there) == NodeAt(here, there) then others(t) else here;
    }

    /** The next `n` of those steps have happened. */
    method Pass(seen: nat -> Node, n: nat)
      requires Valid() && seen(0) == root
      requires forall t: nat :: Named(seen(t)) && NodeAt(seen(t), destination) == Copy()
      modifies this`root, this`history
      ensures Valid() && root == seen(n) && Copy() == old(Copy())
      ensures history == old(history) + seq(n, (t: nat) => seen(t + 1))
    {
      root := seen(n);
      history := history + seq(n, (t: nat) => seen(t + 1));
    }

    method Others()
      requires Valid()
      modifies this`root, this`history
      ensures Valid() && Copy() == old(Copy()) && old(history) <= history
    {
      var seen := Watch();
      Pass(seen, 1);
    }

    /** Whether a system call fails. */
    method Fails() returns (fault: bool)
      modifies this`faulted
      ensures faulted == (old(faulted) || fault)
    {
      fault := *;
      faulted := faulted || fault;
    }

    /** One write of the copier at or below the destination. */
    method Put(path: Path, node: Node)
      requires Valid() && PlainParts(path) && Named(node)
      requires CanPut(root, destination, path)
      modifies this`root, this`writes, this`history
      ensures Valid() && old(history) <= history
      ensures path == [] ==> Copy() == Some(node)
      ensures path != [] ==> Copy() == Some(SetAt(old(Copy()).value, path, node))
    {
      hide NodeAt, Named, PlainParts, Comparable, SetAt, CanSet, IsDirectory;
      var full := destination + path;
      PutAllowed(root, destination, path);
      PutConfined(root, destination, path, node);
      PutNamed(root, destination, path, node);
      PutSeen(root, destination, path, node);
      writes := writes + [Write(root, SetAt(root, full, node))];
      root := SetAt(root, full, node);
      history := history + [root];
    }

    /** `shutil.rmtree(destination, ignore_errors=True)`, assumed to succeed. */
    method RemoveTree()
      requires Valid()
      modifies this`root, this`writes, this`history
      ensures Valid() && Copy().None? && old(history) <= history
    {
      if NodeAt(root, destination).Some? {
        ghost var next := RemoveAt(root, destination);
        forall p | !Comparable(destination, p) ensures NodeAt(next, p) == NodeAt(root, p) {
          RemoveChanges(root, destination, p);
        }
        RemoveChanges(root, destination, Parent());
        RemoveKeepsNames(root, destination);
        writes := writes + [Write(root, RemoveAt(root, destination))];
        root := RemoveAt(root, destination);
        history := history + [root];
      }
    }

    /** `destination.mkdir(mode=0o755)`. */
    method MakeDestination() returns (ok: bool)
      requires Valid()
      modifies this
      ensures Valid() && old(history) <= history && (old(faulted) ==> faulted)
      ensures ok ==> Copy() == Some(NewDirectory())
      ensures !ok ==> Copy() == old(Copy())
      ensures |history| > |old(history)|
      ensures !ok ==> faulted || old(Copy()).Some? || !IsDirectory(history[|old(history)|], Parent())
    {
      var seen := Watch();
      Pass(seen, 1);
      var fault := Fails();
      var parent := NodeAt(root, destination[..|destination| - 1]);
      if fault || NodeAt(root, destination).Some? || parent.None? || !parent.value.Dir? {
        return false;
      }
      Put([], NewDirectory());
      return true;
    }

    /** `mkdir(mode=0o755, parents=True, exist_ok=True)` of a directory below the destination. */
    method MakeDirectories(path: Path) returns (ok: bool)
      requires Valid() && Copy().Some? && PlainParts(path)
      modifies this
      ensures Valid() && Copy().Some? && old(history) <= history && (old(faulted) ==> faulted)
      ensures ok ==> Copy() == WithDirectories(old(Copy()).value, path)
      ensures !ok ==> faulted || WithDirectories(old(Copy()).value, path).None?
      decreases |path|
    {
      hide NodeAt, Named, PlainParts, SetAt, CanSet, IsDirectory;
      Others();
      var fault := Fails();
      if fault {
        return false;
      }
      var copy := NodeAt(root, destination).value;
      var here := NodeAt(copy, path);
      if here.Some? {
        return here.value.Dir?;
      }
      RootIsThere(copy, path);
      var up := path[..|path| - 1];
      PlainPrefix(path, |path| - 1);
      ok := MakeDirectories(up);
      if !ok {
        return;
      }
      DirectoryMade(copy, up);
      ghost var made := Copy().value;
      assert IsDirectory(made, up);
      Others();
      CanSetIn(made, path);
      DirectoryNamed();
      Put(path, NewDirectory());
    }

    /** `_write_new_regular_file`: exclusive creation, then writes of any length until nothing remains. */
    method WriteNewRegularFile(path: Path, payload: bytes, mode: nat) returns (ok: bool)
      requires Valid() && Copy().Some? && PlainParts(path) && path != []
      requires IsDirectory(Copy().value, path[..|path| - 1])
      modifies this
      ensures Valid() && Copy().Some? && old(history) <= history && (old(faulted) ==> faulted)
      ensures ok ==> NodeAt(old(Copy()).value, path).None? && CanSet(old(Copy()).value, path)
      ensures ok ==> Copy() == Some(SetAt(old(Copy()).value, path, File(mode, |payload|, payload)))
      ensures !ok ==> faulted || NodeAt(old(Copy()).value, path).Some?
    {
      hide NodeAt, Named, PlainParts, SetAt, CanSet, IsDirectory;
      ghost var start := Copy().value;
      Others();
      var fault := Fails();
      if fault || NodeAt(NodeAt(root, destination).value, path).Some? {
        return false;
      }
      CanSetIn(start, path);
      FileNamed(mode, []);
      Put(path, File(mode, 0, []));
      var remaining := payload;
      while remaining != []
        invariant Valid() && Copy().Some? && old(history) <= history && (old(faulted) ==> faulted)
        invariant |remaining| <= |payload| && remaining == payload[|payload| - |remaining|..]
        invariant var done := payload[..|payload| - |remaining|];
          Copy() == Some(SetAt(start, path, File(mode, |done|, done)))
        decreases |remaining|
      {
        var written := WriteSome(|remaining|);
        if written == 0 {
          return false;
        }
        ghost var n := |payload| - |remaining|;
        assert payload[..n] + remaining[..written] == payload[..n + written];
        Extend(path, remaining[..written], start, File(mode, n, payload[..n]));
        remaining := remaining[written..];
      }
      assert payload[..|payload|] == payload;
      return true;
    }

    /** The bytes written go to the end of the file. */
    method Extend(path: Path, data: bytes, ghost start: Node, ghost file: Node)
      requires Valid() && PlainParts(path) && path != [] && CanSet(start, path)
      requires file.File? && Copy() == Some(SetAt(start, path, file))
      modifies this`root, this`writes, this`history
      ensures Valid() && old(history) <= history
      ensures Copy() == Some(SetAt(start, path, File(file.mode, |file.content + data|, file.content + data)))
    {
      hide NodeAt, Named, PlainParts, SetAt, CanSet, IsDirectory;
      SetChanges(start, path, file, path);
      var now := NodeAt(NodeAt(root, destination).value, path).value;
      var longer := now.content + data;
      SetTwice(start, path, file, File(now.mode, |longer|, longer));
      FileNamed(now.mode, longer);
      Put(path, File(now.mode, |longer|, longer));
    }

    /** `os.write`: how many bytes were written; none is a failure. */
    method WriteSome(size: nat) returns (written: nat)
      requires Valid()
      modifies this`root, this`history, this`faulted
      ensures Valid() && Copy() == old(Copy()) && old(history) <= history
      ensures written <= size && faulted == (old(faulted) || written == 0)
    {
      Others();
      written := *;
      if written > size { written := size; }
      faulted := faulted || written == 0;
    }
  }

  // ---------- A copy in the making ----------

  /** The node is a copy of the other, apart from what a directory holds. */
  predicate Alike(a: Node, b: Node) {
    (a.Dir? && b.Dir?) || (a.File? && b.File? && a.mode == b.mode && a.content == b.content)
  }

  /** Everything in the copy is a copy of a visible node of the source at the same path. */
  ghost predicate Mirrors(copy: Node, src: Node, c: Contract) {
    && copy.Dir? && src.Dir?
    && forall path :: path != [] && NodeAt(copy, path).Some? ==> MirroredAt(copy, src, c, path)
  }

  ghost predicate MirroredAt(copy: Node, src: Node, c: Contract, path: Path)
    requires NodeAt(copy, path).Some?
  {
    Visible(src, c, path) && Alike(NodeAt(copy, path).value, NodeAt(src, path).value)
  }

  predicate IsFile(root: Node, path: Path) { NodeAt(root, path).Some? && NodeAt(root, path).value.File? }

  /** A source that is accepted, and its manifest. */
  ghost predicate Original(src: Node, c: Contract, sha256: Digest, m: seq<ManifestEntry>) {
    Named(src) && Accepts(src, c) && IsManifest(src, c, sha256, m)
  }

  /** The files of the copy are those of the first `i` entries. */
  ghost predicate CopiedSoFar(copy: Node, src: Node, c: Contract, m: seq<ManifestEntry>, i: nat)
    requires i <= |m|
  {
    && Mirrors(copy, src, c)
    && (forall k :: 0 <= k < i ==> IsFile(copy, Parts(m[k].relative)))
    && (forall path :: IsFile(copy, path) ==> exists k :: 0 <= k < i && Parts(m[k].relative) == path)
  }

  /** The entry's path: its file in the source, and the way to it. */
  lemma EntryPath(src: Node, c: Contract, sha256: Digest, m: seq<ManifestEntry>, i: nat)
    requires Original(src, c, sha256, m) && i < |m|
    ensures var path := Parts(m[i].relative);
      && path != [] && PlainParts(path) && Relative(path) == m[i].relative
      && PresentFile(src, c, path, m[i].relative)
      && m[i].size == |NodeAt(src, path).value.content| && m[i].digest == sha256(NodeAt(src, path).value.content)
  {
    var path :| PresentFile(src, c, path, m[i].relative);
    NamesOnPath(src, path);
    SplitJoin(path);
  }

  lemma PrefixVisible(src: Node, c: Contract, path: Path, k: nat)
    requires Visible(src, c, path) && 0 < k < |path|
    ensures Visible(src, c, path[..k]) && NodeAt(src, path[..k]).value.Dir?
  {
    NodeAtPrefix(src, path, k);
  }

  lemma MirrorSet(copy: Node, src: Node, c: Contract, path: Path, node: Node)
    requires Mirrors(copy, src, c) && path != [] && CanSet(copy, path)
    requires Visible(src, c, path) && Alike(node, NodeAt(src, path).value) && (node.File? || node == NewDirectory())
    ensures Mirrors(SetAt(copy, path, node), src, c)
  {
    hide NodeAt, SetAt, CanSet, Visible;
    var next := SetAt(copy, path, node);
    SetChanges(copy, path, node, []);
    RootIs(copy);
    RootIs(next);
    forall p | p != [] && NodeAt(next, p).Some? ensures MirroredAt(next, src, c, p) {
      SetChanges(copy, path, node, p);
      if Prefix(path, p) {
        NothingBelow(node, p[|path|..]);
        assert p[..|path|] == path;
        assert p == path + p[|path|..];
      } else {
        assert MirroredAt(copy, src, c, p);
      }
    }
  }

  lemma RootIs(root: Node)
    ensures NodeAt(root, []) == Some(root)
  {
  }

  lemma NothingBelow(node: Node, path: Path)
    requires node.File? || node == NewDirectory()
    ensures NodeAt(node, path).Some? ==> path == []
  {
  }

  /** Files elsewhere are untouched by a new node where there was none. */
  lemma FilesAfter(copy: Node, path: Path, node: Node, p: Path)
    requires path != [] && CanSet(copy, path) && NodeAt(copy, path).None? && (node.File? || node == NewDirectory())
    ensures IsFile(SetAt(copy, path, node), p) <==> IsFile(copy, p) || (p == path && node.File?)
  {
    SetChanges(copy, path, node, p);
    if Prefix(path, p) {
      NothingBelow(node, p[|path|..]);
      assert p[..|path|] == path;
      if NodeAt(copy, p).Some? && |p| > |path| { NodeAtPrefix(copy, p, |path|); }
      if |p| == |path| { assert p == path; }
    }
  }

  /** Making the directories on the way to an expected file succeeds and copies nothing else. */
  lemma {:induction false} MirrorDirectories(copy: Node, src: Node, c: Contract, m: seq<ManifestEntry>, i: nat, path: Path)
    requires i <= |m| && CopiedSoFar(copy, src, c, m, i)
    requires path != [] ==> Visible(src, c, path) && NodeAt(src, path).value.Dir?
    ensures WithDirectories(copy, path).Some? && CopiedSoFar(WithDirectories(copy, path).value, src, c, m, i)
    ensures forall p :: IsFile(WithDirectories(copy, path).value, p) <==> IsFile(copy, p)
    decreases |path|
  {
    hide Visible;
    if NodeAt(copy, path).Some? {
      if path != [] { assert MirroredAt(copy, src, c, path); }
    } else {
      var up := path[..|path| - 1];
      if up != [] { PrefixVisible(src, c, path, |path| - 1); }
      MirrorDirectories(copy, src, c, m, i, up);
      var t := WithDirectories(copy, up).value;
      DirectoryMade(copy, up);
      CanSetIn(t, path);
      if NodeAt(t, path).None? {
        OneDirectory(t, src, c, m, i, path);
      } else {
        StillAbsent(copy, up, path);
      }
    }
  }

  lemma {:induction false} StillAbsent(copy: Node, up: Path, path: Path)
    requires WithDirectories(copy, up).Some? && NodeAt(copy, path).None? && |path| > |up|
    ensures NodeAt(WithDirectories(copy, up).value, path).None?
    decreases |up|
  {
    if NodeAt(copy, up).None? {
      var t := WithDirectories(copy, up[..|up| - 1]).value;
      StillAbsent(copy, up[..|up| - 1], path);
      SetChanges(t, up, NewDirectory(), path);
      if Prefix(up, path) { NothingBelow(NewDirectory(), path[|up|..]); }
    }
  }

  lemma OneDirectory(t: Node, src: Node, c: Contract, m: seq<ManifestEntry>, i: nat, path: Path)
    requires i <= |m| && CopiedSoFar(t, src, c, m, i) && path != [] && CanSet(t, path) && NodeAt(t, path).None?
    requires Visible(src, c, path) && NodeAt(src, path).value.Dir?
    ensures CopiedSoFar(SetAt(t, path, NewDirectory()), src, c, m, i)
    ensures forall p :: IsFile(SetAt(t, path, NewDirectory()), p) <==> IsFile(t, p)
  {
    hide NodeAt, SetAt, CanSet, Visible;
    MirrorSet(t, src, c, path, NewDirectory());
    forall p ensures IsFile(SetAt(t, path, NewDirectory()), p) <==> IsFile(t, p) {
      FilesAfter(t, path, NewDirectory(), p);
    }
  }

  /** Before an entry is written: its directory can be made, and the file is not there yet. */
  lemma ReadyToCopy(copy: Node, src: Node, c: Contract, sha256: Digest, m: seq<ManifestEntry>, i: nat)
    requires Original(src, c, sha256, m) && i < |m| && CopiedSoFar(copy, src, c, m, i)
    ensures var path := Parts(m[i].relative);
      && path != [] && WithDirectories(copy, path[..|path| - 1]).Some?
      && CopiedSoFar(WithDirectories(copy, path[..|path| - 1]).value, src, c, m, i)
      && NodeAt(WithDirectories(copy, path[..|path| - 1]).value, path).None?
  {
    hide NodeAt, WithDirectories, Visible, IsManifest, Accepts;
    EntryPath(src, c, sha256, m, i);
    var path := Parts(m[i].relative);
    var up := path[..|path| - 1];
    if up != [] { PrefixVisible(src, c, path, |path| - 1); }
    MirrorDirectories(copy, src, c, m, i, up);
    var t := WithDirectories(copy, up).value;
    if NodeAt(t, path).Some? {
      assert MirroredAt(t, src, c, path);
      assert IsFile(t, path);
      var k :| 0 <= k < i && Parts(m[k].relative) == path;
      EntryPath(src, c, sha256, m, k);
      EntriesDiffer(src, c, sha256, m, k, i);
      assert false;
    }
  }

  lemma EntriesDiffer(src: Node, c: Contract, sha256: Digest, m: seq<ManifestEntry>, k: nat, i: nat)
    requires IsManifest(src, c, sha256, m) && k < i < |m|
    ensures m[k].relative != m[i].relative
  {
    LessTotal(m[k].relative, m[i].relative);
  }

  lemma OneMoreCopied(t: Node, src: Node, c: Contract, sha256: Digest, m: seq<ManifestEntry>, i: nat, node: Node)
    requires Original(src, c, sha256, m) && i < |m| && CopiedSoFar(t, src, c, m, i)
    requires var path := Parts(m[i].relative);
      path != [] && CanSet(t, path) && NodeAt(t, path).None? && node.File? &&
      IsFile(src, path) && Alike(node, NodeAt(src, path).value)
    ensures CopiedSoFar(SetAt(t, Parts(m[i].relative), node), src, c, m, i + 1)
  {
    hide NodeAt, SetAt, CanSet, Visible, IsManifest, Accepts, Parts;
    EntryPath(src, c, sha256, m, i);
    var path := Parts(m[i].relative);
    var next := SetAt(t, path, node);
    MirrorSet(t, src, c, path, node);
    forall p ensures IsFile(next, p) <==> IsFile(t, p) || p == path { FilesAfter(t, path, node, p); }
    forall k | 0 <= k < i + 1 ensures IsFile(next, Parts(m[k].relative)) {
      if k < i { assert IsFile(t, Parts(m[k].relative)); }
    }
    forall p | IsFile(next, p) ensures exists k :: 0 <= k < i + 1 && Parts(m[k].relative) == p {
      if p != path {
        var k :| 0 <= k < i && Parts(m[k].relative) == p;
      }
    }
  }

  /** A file of the source is in the copy, with its mode and bytes. */
  ghost predicate CopiedFile(copy: Node, src: Node, path: Path) {
    IsFile(copy, path) && IsFile(src, path) && Alike(NodeAt(copy, path).value, NodeAt(src, path).value)
  }

  ghost predicate SameFiles(copy: Node, src: Node, c: Contract) {
    && Mirrors(copy, src, c)
    && forall text, path :: PresentFile(src, c, path, text) ==> CopiedFile(copy, src, path)
  }

  lemma EntryOf(src: Node, c: Contract, sha256: Digest, m: seq<ManifestEntry>, text: string) returns (i: nat)
    requires Original(src, c, sha256, m) && text in c.expectedFiles
    ensures i < |m| && m[i].relative == text
  {
    hide IsManifest;
    Relatives(src, c, sha256, m);
    assert text in RelativeTexts(m);
    i :| 0 <= i < |RelativeTexts(m)| && RelativeTexts(m)[i] == text;
  }

  lemma SourceFileCopied(copy: Node, src: Node, c: Contract, sha256: Digest, m: seq<ManifestEntry>, text: string, path: Path)
    requires Original(src, c, sha256, m) && CopiedSoFar(copy, src, c, m, |m|) && PresentFile(src, c, path, text)
    ensures CopiedFile(copy, src, path)
  {
    hide NodeAt, Relative, Parts, IsManifest;
    assert text in c.expectedFiles by { PresentIsExpected(src, c, path, text); }
    var i := EntryOf(src, c, sha256, m, text);
    EntryPath(src, c, sha256, m, i);
    NamesOnPath(src, path);
    RelativeInjective(path, Parts(text));
    assert IsFile(copy, path);
    assert MirroredAt(copy, src, c, path);
  }

  lemma PresentIsExpected(src: Node, c: Contract, path: Path, text: string)
    requires Accepts(src, c) && PresentFile(src, c, path, text)
    ensures text in c.expectedFiles
  {
    assert Allowed(src, c, path);
  }

  lemma CopyOf(copy: Node, src: Node, c: Contract, sha256: Digest, m: seq<ManifestEntry>, text: string)
    requires Original(src, c, sha256, m) && CopiedSoFar(copy, src, c, m, |m|) && text in c.expectedFiles
    ensures exists path :: PresentFile(copy, c, path, text)
  {
    hide NodeAt, Relative, Parts, IsManifest, Accepts;
    var i := EntryOf(src, c, sha256, m, text);
    EntryPath(src, c, sha256, m, i);
    var path := Parts(text);
    assert IsFile(copy, path);
    assert MirroredAt(copy, src, c, path);
    if NodeAt(copy, [path[0]]).Some? { assert MirroredAt(copy, src, c, [path[0]]); }
    assert PresentFile(copy, c, path, text);
  }

  lemma SameManifest(copy: Node, src: Node, c: Contract, sha256: Digest, m: seq<ManifestEntry>)
    requires IsManifest(src, c, sha256, m) && Mirrors(copy, src, c)
    ensures IsManifest(copy, c, sha256, m)
  {
    hide NodeAt, Relative, Less;
    forall i, path | 0 <= i < |m| && PresentFile(copy, c, path, m[i].relative)
      ensures m[i].size == |NodeAt(copy, path).value.content| && m[i].digest == sha256(NodeAt(copy, path).value.content)
    {
      assert MirroredAt(copy, src, c, path);
      assert PresentFile(src, c, path, m[i].relative);
    }
  }

  /** The finished copy is accepted and has the source's manifest, and no other. */
  lemma AllCopied(copy: Node, src: Node, c: Contract, sha256: Digest, m: seq<ManifestEntry>)
    requires Original(src, c, sha256, m) && CopiedSoFar(copy, src, c, m, |m|)
    ensures Accepts(copy, c) && SameFiles(copy, src, c)
    ensures forall m' :: IsManifest(copy, c, sha256, m') ==> m' == m
  {
    hide NodeAt, Relative, Parts, IsManifest;
    forall path | Visible(copy, c, path) ensures Allowed(copy, c, path) {
      assert MirroredAt(copy, src, c, path);
    }
    forall text | text in c.expectedFiles ensures exists path :: PresentFile(copy, c, path, text) {
      CopyOf(copy, src, c, sha256, m, text);
    }
    forall text, path | PresentFile(src, c, path, text) ensures CopiedFile(copy, src, path) {
      assert Allowed(src, c, path);
      SourceFileCopied(copy, src, c, sha256, m, text, path);
    }
    assert IsManifest(copy, c, sha256, m) by { SameManifest(copy, src, c, sha256, m); }
    forall m' | IsManifest(copy, c, sha256, m') ensures m' == m { ManifestUnique(copy, c, sha256, m, m'); }
  }

  // ---------- What the copier saw of the source ----------

  /** One run of the manifest over the source: from a state of the history, for some steps. */
  datatype Observation = Observation(start: nat, steps: nat, result: Result<seq<ManifestEntry>, SourceError>)

  ghost predicate SawFile(history: seq<Node>, source: Path, o: Observation, entry: ManifestEntry) {
    exists t: nat, path: Path, mode: nat ::
      o.start <= t <= o.start + o.steps && t < |history| && Relative(path) == entry.relative &&
      NodeAt(history[t], source).Some? && HoldsFile(NodeAt(NodeAt(history[t], source).value, path), mode, entry.size)
  }

  ghost predicate SourceStill(history: seq<Node>, source: Path, first: nat, last: nat)
    requires first <= last < |history|
  {
    forall t: nat :: first <= t <= last ==> NodeAt(history[t], source) == NodeAt(history[first], source)
  }

  /** What a successful observation means: the manifest lists every expected file once, in order, each seen as a
      regular file of that size during the observation; if the source kept still, it is accepted and this is its
      manifest. */
  ghost predicate Observed(history: seq<Node>, source: Path, c: Contract, sha256: Digest, o: Observation) {
    && o.start + o.steps < |history|
    && (o.result.Ok? ==>
          && StrictlySorted(RelativeTexts(o.result.value))
          && (forall text :: text in RelativeTexts(o.result.value) <==> text in c.expectedFiles)
          && (forall i :: 0 <= i < |o.result.value| ==> SawFile(history, source, o, o.result.value[i]))
          && (SourceStill(history, source, o.start, o.start + o.steps) ==>
                var node := NodeAt(history[o.start], source);
                node.Some? && Accepts(node.value, c) && IsManifest(node.value, c, sha256, o.result.value)))
  }

  lemma ObservedLater(history: seq<Node>, more: seq<Node>, source: Path, c: Contract, sha256: Digest, o: Observation)
    requires Observed(history, source, c, sha256, o) && history <= more
    ensures Observed(more, source, c, sha256, o)
  {
    hide NodeAt, Relative, Accepts, IsManifest, HoldsFile;
    if o.result.Ok? {
      forall i | 0 <= i < |o.result.value| ensures SawFile(more, source, o, o.result.value[i]) {
        assert SawFile(history, source, o, o.result.value[i]);
        SawLater(history, more, source, o, o.result.value[i]);
      }
      if SourceStill(more, source, o.start, o.start + o.steps) {
        assert SourceStill(history, source, o.start, o.start + o.steps);
      }
    }
  }

  lemma SawLater(history: seq<Node>, more: seq<Node>, source: Path, o: Observation, entry: ManifestEntry)
    requires SawFile(history, source, o, entry) && history <= more
    ensures SawFile(more, source, o, entry)
  {
    hide NodeAt, Relative, HoldsFile;
    var t: nat, path: Path, mode: nat :|
      o.start <= t <= o.start + o.steps && t < |history| && Relative(path) == entry.relative &&
      NodeAt(history[t], source).Some? && HoldsFile(NodeAt(NodeAt(history[t], source).value, path), mode, entry.size);
    assert more[t] == history[t];
  }

  /** The states of the history from `start` on, as a reader below `base` sees them. */
  ghost predicate Shown(history: seq<Node>, start: nat, steps: nat, base: Path, tree: Tree) {
    start + steps < |history| && forall t: nat :: t <= steps ==> tree(t) == NodeAt(history[start + t], base)
  }

  lemma ObservedNow(history: seq<Node>, source: Path, c: Contract, sha256: Digest, tree: Tree, o: Observation)
    requires Shown(history, o.start, o.steps, source, tree)
    requires o.result.Ok? ==> Lists(tree, o.steps, c, o.result.value)
    requires Steady(tree, o.steps) && o.result.Ok? ==>
      tree(0).Some? && Accepts(tree(0).value, c) && IsManifest(tree(0).value, c, sha256, o.result.value)
    ensures Observed(history, source, c, sha256, o)
  {
    hide NodeAt, Relative, Accepts, IsManifest, HoldsFile;
    if o.result.Ok? {
      var m := o.result.value;
      forall i | 0 <= i < |m| ensures SawFile(history, source, o, m[i]) {
        assert Sighted(tree, o.steps, m[i].relative, m[i].size);
        SawNow(history, source, tree, o, m[i]);
      }
      if SourceStill(history, source, o.start, o.start + o.steps) {
        forall t: nat | t <= o.steps ensures tree(t) == tree(0) {
          assert NodeAt(history[o.start + t], source) == NodeAt(history[o.start], source);
        }
        assert Steady(tree, o.steps);
      }
    }
  }

  lemma SawNow(history: seq<Node>, source: Path, tree: Tree, o: Observation, entry: ManifestEntry)
    requires Shown(history, o.start, o.steps, source, tree) && Sighted(tree, o.steps, entry.relative, entry.size)
    ensures SawFile(history, source, o, entry)
  {
    hide NodeAt, Relative;
    var t: nat, path: Path, mode: nat :|
      t <= o.steps && Relative(path) == entry.relative && HoldsFile(Seen(tree, t, path), mode, entry.size);
    assert tree(t) == NodeAt(history[o.start + t], source);
  }

  // ---------- A source that nobody changes ----------

  /** From this state on, the source shows one tree and the parent of the destination stays a directory. */
  ghost predicate Calm(history: seq<Node>, first: nat, source: Path, parent: Path, src: Option<Node>) {
    forall t: nat :: first <= t < |history| ==> CalmAt(history[t], source, parent, src)
  }

  ghost predicate CalmAt(root: Node, source: Path, parent: Path, src: Option<Node>) {
    NodeAt(root, source) == src && IsDirectory(root, parent)
  }

  lemma CalmBefore(history: seq<Node>, more: seq<Node>, first: nat, source: Path, parent: Path, src: Option<Node>)
    requires history <= more
    ensures Calm(more, first, source, parent, src) ==> Calm(history, first, source, parent, src)
  {
    hide CalmAt;
    assert forall t :: 0 <= t < |history| ==> history[t] == more[t];
  }

  lemma CalmShown(history: seq<Node>, first: nat, source: Path, parent: Path, src: Option<Node>, start: nat, steps: nat, tree: Tree)
    requires first <= start && Shown(history, start, steps, source, tree)
    ensures Calm(history, first, source, parent, src) ==>
              Steady(tree, steps) && tree(0) == src && forall t: nat :: t <= steps ==> tree(t) == src
  {
    hide NodeAt, IsDirectory;
    if Calm(history, first, source, parent, src) {
      forall t: nat | t <= steps ensures tree(t) == src {
        assert CalmAt(history[start + t], source, parent, src);
      }
    }
  }

  // ---------- The copy ----------

  /** Expected files are named by plain relative paths, as in the two closed contracts of the source. */
  predicate PlainFiles(c: Contract) {
    forall text :: text in c.expectedFiles ==> Parts(text) != [] && PlainParts(Parts(text))
  }

  predicate OnlyExpected(c: Contract, m: seq<ManifestEntry>) {
    forall i :: 0 <= i < |m| ==> m[i].relative in c.expectedFiles
  }

  lemma SubtreeNamed(root: Node, path: Path)
    requires Named(root)
    ensures NodeAt(root, path).Some? ==> Named(NodeAt(root, path).value)
  {
    if NodeAt(root, path).Some? { NamesOnPath(root, path); }
  }

  lemma ShownHistory(before: seq<Node>, history: seq<Node>, seen: nat -> Node, steps: nat, base: Path, tree: Tree)
    requires before != [] && before[|before| - 1] == seen(0)
    requires history == before + seq(steps, (t: nat) => seen(t + 1))
    requires forall t: nat :: tree(t) == NodeAt(seen(t), base)
    ensures before <= history && Shown(history, |before| - 1, steps, base, tree)
  {
    hide NodeAt;
    var start := |before| - 1;
    forall t: nat | t <= steps ensures history[start + t] == seen(t) {
      if t > 0 { assert history[start + t] == seq(steps, (t: nat) => seen(t + 1))[t - 1]; }
    }
  }

  /** `manifest_function(source_root)`, while others may change the source. */
  method ObserveSource(fs: FileSystem, c: Contract, sha256: Digest, ghost first: nat, ghost src: Option<Node>)
    returns (r: Result<seq<ManifestEntry>, SourceError>, ghost o: Observation)
    requires fs.Valid() && first < |fs.history|
    modifies fs`root, fs`history, fs`faulted
    ensures fs.Valid() && fs.Copy() == old(fs.Copy()) && old(fs.history) <= fs.history && (old(fs.faulted) ==> fs.faulted)
    ensures o.start == |old(fs.history)| - 1 && o.result == r && Observed(fs.history, fs.source, c, sha256, o)
    ensures r.Ok? ==> OnlyExpected(c, r.value)
    ensures |fs.history| == |old(fs.history)| + o.steps
    ensures !fs.faulted && Calm(fs.history, first, fs.source, fs.Parent(), src) ==>
              (r.Ok? <==> src.Some? && Accepts(src.value, c)) && (r.Ok? ==> IsManifest(src.value, c, sha256, r.value))
  {
    hide NodeAt, Named, Accepts, IsManifest, Calm, Steady, Shown, Observed;
    var source := fs.source;
    var seen := fs.Watch();
    var tree: Tree := (t: nat) => NodeAt(seen(t), source);
    forall t: nat | tree(t).Some? ensures Named(tree(t).value) { SubtreeNamed(seen(t), source); }
    var steps: nat;
    ghost var failed: bool;
    r, steps, failed := SourceManifest.SourceManifest(tree, c, sha256);
    ghost var before := fs.history;
    fs.Pass(seen, steps);
    fs.faulted := fs.faulted || failed;
    o := Observation(|before| - 1, steps, r);
    ShownHistory(before, fs.history, seen, steps, source, tree);
    ObservedNow(fs.history, source, c, sha256, tree, o);
    CalmShown(fs.history, first, source, fs.Parent(), src, o.start, steps, tree);
    if r.Ok? { ListedAreExpected(tree, steps, c, r.value); }
  }

  lemma ListedAreExpected(tree: Tree, steps: nat, c: Contract, m: seq<ManifestEntry>)
    requires Lists(tree, steps, c, m)
    ensures OnlyExpected(c, m)
  {
    hide Sighted;
    assert forall i :: 0 <= i < |m| ==> RelativeTexts(m)[i] in RelativeTexts(m);
  }

  /** `manifest_function(destination)`: nobody else writes there. */
  method ObserveCopy(fs: FileSystem, c: Contract, sha256: Digest) returns (r: Result<seq<ManifestEntry>, SourceError>)
    requires fs.Valid()
    modifies fs`root, fs`history, fs`faulted
    ensures fs.Valid() && fs.Copy() == old(fs.Copy()) && old(fs.history) <= fs.history && (old(fs.faulted) ==> fs.faulted)
    ensures !fs.faulted ==> (r.Ok? <==> fs.Copy().Some? && Accepts(fs.Copy().value, c))
    ensures r.Ok? ==> fs.Copy().Some? && Accepts(fs.Copy().value, c) && IsManifest(fs.Copy().value, c, sha256, r.value)
  {
    hide NodeAt, Named, Accepts, IsManifest, Lists;
    var destination := fs.destination;
    var seen := fs.Watch();
    var tree: Tree := (t: nat) => NodeAt(seen(t), destination);
    forall t: nat | tree(t).Some? ensures Named(tree(t).value) { SubtreeNamed(seen(t), destination); }
    var steps: nat;
    ghost var failed: bool;
    r, steps, failed := SourceManifest.SourceManifest(tree, c, sha256);
    fs.Pass(seen, steps);
    fs.faulted := fs.faulted || failed;
    assert Steady(tree, steps);
  }

  /** `_read_regular_file(source_path)`, while others may change the source. */
  method ReadSource(fs: FileSystem, path: Path, ghost first: nat, ghost src: Node) returns (read: Option<SourceFile>)
    requires fs.Valid() && first < |fs.history|
    modifies fs`root, fs`history, fs`faulted
    ensures fs.Valid() && fs.Copy() == old(fs.Copy()) && old(fs.history) <= fs.history && (old(fs.faulted) ==> fs.faulted)
    ensures !fs.faulted && Calm(fs.history, first, fs.source, fs.Parent(), Some(src)) && IsFile(src, path) ==>
              read == Some(SourceFile(NodeAt(src, path).value.content, NodeAt(src, path).value.mode))
  {
    hide NodeAt, Named, Calm, Steady, Shown, HoldsFile;
    var source := fs.source;
    var seen := fs.Watch();
    var tree: Tree := (t: nat) => NodeAt(seen(t), source);
    var end: nat;
    ghost var failed: bool;
    read, end, failed := ReadRegularFile(tree, path, 0);
    ghost var before := fs.history;
    fs.Pass(seen, end);
    fs.faulted := fs.faulted || failed;
    ShownHistory(before, fs.history, seen, end, source, tree);
    CalmShown(fs.history, first, source, fs.Parent(), Some(src), |before| - 1, end, tree);
  }

  /** One file and the directories above it. */
  method WriteBelow(fs: FileSystem, path: Path, payload: bytes, mode: nat) returns (ok: bool)
    requires fs.Valid() && fs.Copy().Some? && DirModes(fs.Copy().value) && PlainParts(path) && path != []
    modifies fs
    ensures fs.Valid() && fs.Copy().Some? && old(fs.history) <= fs.history && (old(fs.faulted) ==> fs.faulted)
    ensures var made := WithDirectories(old(fs.Copy()).value, path[..|path| - 1]);
      if ok then
        && made.Some? && NodeAt(made.value, path).None? && CanSet(made.value, path)
        && fs.Copy() == Some(SetAt(made.value, path, File(mode, |payload|, payload)))
      else
        fs.faulted || made.None? || NodeAt(made.value, path).Some?
    ensures ok ==> DirModes(fs.Copy().value)
  {
    hide NodeAt, Named, DirModes, SetAt, CanSet, WithDirectories, PlainParts, IsDirectory;
    ghost var copy := fs.Copy().value;
    var up := path[..|path| - 1];
    PlainPrefix(path, |path| - 1);
    ok := fs.MakeDirectories(up);
    if !ok {
      return;
    }
    DirectoryMade(copy, up);
    MadeModes(copy, up);
    ghost var ready := fs.Copy().value;
    ok := fs.WriteNewRegularFile(path, payload, mode);
    if ok { WrittenModes(ready, path, mode, payload); }
  }

  /** The `try` block: make the destination, copy every file of the first manifest, then look at both trees. */
  method CopyFiles(fs: FileSystem, before: seq<ManifestEntry>, c: Contract, sha256: Digest, ghost src: Node)
    returns (r: Result<seq<ManifestEntry>, CopyError>, ghost after: Observation)
    requires fs.Valid() && PlainFiles(c) && OnlyExpected(c, before)
    modifies fs
    ensures fs.Valid() && old(fs.history) <= fs.history && (old(fs.faulted) ==> fs.faulted)
    ensures r.Ok? ==> r.value == before && after.result == Ok(before) && after.start >= |old(fs.history)| - 1
                      && Observed(fs.history, fs.source, c, sha256, after)
    ensures r.Ok? ==> fs.Copy().Some? && Accepts(fs.Copy().value, c) && IsManifest(fs.Copy().value, c, sha256, before)
    ensures r.Ok? ==> DirModes(fs.Copy().value)
    ensures (&& !fs.faulted && Calm(fs.history, |old(fs.history)| - 1, fs.source, fs.Parent(), Some(src))
             && Original(src, c, sha256, before) && old(fs.Copy()).None?) ==>
              r.Ok? && SameFiles(fs.Copy().value, src, c)
  {
    hide NodeAt, Named, DirModes, Accepts, IsManifest, Calm, Observed, Mirrors, CopiedSoFar, SameFiles, SetAt, CanSet, WithDirectories,
         Parts, PlainParts, IsDirectory, Original;
    ghost var first, start := |fs.history| - 1, fs.history;
    ghost var expected := Original(src, c, sha256, before) && fs.Copy().None?;
    after := Observation(0, 0, Err(Unavailable));
    var made := fs.MakeDestination();
    if !made {
      CalmParent(fs.history, first, fs.source, fs.Parent(), Some(src), |start|);
      return Err(CannotWrite), after;
    }
    EmptyCopy(src, c, sha256, before);
    NewModes();
    for i := 0 to |before|
      invariant fs.Valid() && fs.Copy().Some? && start <= fs.history && (old(fs.faulted) ==> fs.faulted)
      invariant DirModes(fs.Copy().value)
      invariant expected && !fs.faulted && Calm(fs.history, first, fs.source, fs.Parent(), Some(src)) ==>
                  CopiedSoFar(fs.Copy().value, src, c, before, i)
    {
      var path := Parts(before[i].relative);
      ghost var copy, history := fs.Copy().value, fs.history;
      var read := ReadSource(fs, path, first, src);
      CalmBefore(history, fs.history, first, fs.source, fs.Parent(), Some(src));
      if expected { EntryIsFile(src, c, sha256, before, i); }
      if read.None? {
        return Err(SourceRefused), after;
      }
      var file := read.value;
      if |file.payload| != before[i].size || sha256(file.payload) != before[i].digest {
        return Err(ChangedWhileCopying), after;
      }
      ghost var calm := expected && !fs.faulted && Calm(fs.history, first, fs.source, fs.Parent(), Some(src));
      if calm { ReadyToCopy(copy, src, c, sha256, before, i); }
      history := fs.history;
      var ok := WriteBelow(fs, path, file.payload, file.mode);
      CalmBefore(history, fs.history, first, fs.source, fs.Parent(), Some(src));
      if !ok {
        return Err(CannotWrite), after;
      }
      ghost var ready := WithDirectories(copy, path[..|path| - 1]).value;
      if expected && !fs.faulted && Calm(fs.history, first, fs.source, fs.Parent(), Some(src)) {
        OneMoreCopied(ready, src, c, sha256, before, i, File(file.mode, |file.payload|, file.payload));
      }
    }
    ghost var copy, history := fs.Copy().value, fs.history;
    var sourceAfter;
    sourceAfter, after := ObserveSource(fs, c, sha256, first, Some(src));
    ghost var seen := fs.history;
    if sourceAfter.Err? {
      if expected { OriginalIsAccepted(src, c, sha256, before); }
      return Err(SourceRefused), after;
    }
    var copied := ObserveCopy(fs, c, sha256);
    CalmBefore(history, fs.history, first, fs.source, fs.Parent(), Some(src));
    CalmBefore(seen, fs.history, first, fs.source, fs.Parent(), Some(src));
    ObservedLater(seen, fs.history, fs.source, c, sha256, after);
    if expected && !fs.faulted && Calm(fs.history, first, fs.source, fs.Parent(), Some(src)) {
      AllCopied(copy, src, c, sha256, before);
      OriginalIsAccepted(src, c, sha256, before);
      ManifestUnique(src, c, sha256, before, sourceAfter.value);
    }
    if copied.Err? {
      return Err(CopyNotExact), after;
    }
    if sourceAfter.value != before {
      return Err(SourceChanged), after;
    }
    if copied.value != before {
      return Err(CopyNotExact), after;
    }
    r := Ok(copied.value);
  }

  lemma OriginalIsAccepted(src: Node, c: Contract, sha256: Digest, m: seq<ManifestEntry>)
    requires Original(src, c, sha256, m)
    ensures Named(src) && Accepts(src, c) && IsManifest(src, c, sha256, m)
  {
  }

  lemma CalmParent(history: seq<Node>, first: nat, source: Path, parent: Path, src: Option<Node>, t: nat)
    requires first <= t < |history|
    ensures Calm(history, first, source, parent, src) ==> NodeAt(history[t], source) == src && IsDirectory(history[t], parent)
  {
    hide NodeAt, IsDirectory;
    if Calm(history, first, source, parent, src) { assert CalmAt(history[t], source, parent, src); }
  }

  lemma EmptyCopy(src: Node, c: Contract, sha256: Digest, m: seq<ManifestEntry>)
    ensures Original(src, c, sha256, m) ==> CopiedSoFar(NewDirectory(), src, c, m, 0)
  {
    forall path ensures NodeAt(NewDirectory(), path).Some? ==> path == [] { NothingBelow(NewDirectory(), path); }
  }

  lemma EntryIsFile(src: Node, c: Contract, sha256: Digest, m: seq<ManifestEntry>, i: nat)
    requires Original(src, c, sha256, m) && i < |m|
    ensures var path := Parts(m[i].relative);
      IsFile(src, path) && m[i].size == |NodeAt(src, path).value.content| && m[i].digest == sha256(NodeAt(src, path).value.content)
  {
    hide NodeAt, Parts;
    EntryPath(src, c, sha256, m, i);
  }

  /** Whatever happens to the source meanwhile: a copy is returned only if its manifest was observed of the source
      before and again after; otherwise a destination that was absent is absent again, and one that was there is as
      it was; and no write of the copier reaches the source. If the source shows one accepted tree throughout, the
      parent stays a directory and no call fails, then a copy with every file of the source is returned. */
  method CopyTree(fs: FileSystem, c: Contract, sha256: Digest)
    returns (r: Result<seq<ManifestEntry>, CopyError>, ghost before: Observation, ghost after: Observation)
    requires fs.Valid() && fs.writes == [] && PlainFiles(c)
    modifies fs
    ensures fs.Valid() && old(fs.history) <= fs.history
    ensures r.Ok? ==> before.result == after.result == Ok(r.value)
    ensures r.Ok? ==> |old(fs.history)| - 1 <= before.start && before.start + before.steps <= after.start
    ensures r.Ok? ==> Observed(fs.history, fs.source, c, sha256, before) && Observed(fs.history, fs.source, c, sha256, after)
    ensures r.Ok? ==> fs.Copy().Some? && Accepts(fs.Copy().value, c) && IsManifest(fs.Copy().value, c, sha256, r.value)
    ensures r.Ok? ==> DirModes(fs.Copy().value)
    ensures r.Err? ==> fs.Copy() == old(fs.Copy())
    ensures old(fs.Copy()).Some? ==> r.Err?
    ensures Comparable(fs.destination, fs.source) ==> r.Err? && fs.writes == []
    ensures forall i :: 0 <= i < |fs.writes| ==> NodeAt(fs.writes[i].after, fs.source) == NodeAt(fs.writes[i].before, fs.source)
    ensures var src := old(NodeAt(fs.root, fs.source));
      (&& src.Some? && Accepts(src.value, c) && old(fs.Copy()).None? && !Comparable(fs.destination, fs.source)
       && Calm(fs.history, |old(fs.history)| - 1, fs.source, fs.Parent(), src) && !fs.faulted) ==>
        r.Ok? && SameFiles(fs.Copy().value, src.value, c)
  {
    hide NodeAt, Named, DirModes, Accepts, IsManifest, Calm, Observed, SameFiles, IsDirectory, Original, PlainParts;
    ghost var first, start := |fs.history| - 1, fs.history;
    ghost var src := NodeAt(fs.root, fs.source);
    before := Observation(0, 0, Err(Unavailable));
    after := before;
    var fault := fs.Fails();
    var there := NodeAt(fs.root, fs.source);
    if fault || there.None? || !there.value.Dir? {
      if src.Some? { AcceptedIsDirectory(src.value, c); }
      return Err(SourceUnavailable), before, after;
    }
    fs.Others();
    if NodeAt(fs.root, fs.destination).Some? {
      return Err(DestinationExists), before, after;
    }
    fs.Others();
    fault := fs.Fails();
    var parent := NodeAt(fs.root, fs.destination[..|fs.destination| - 1]);
    if fault || parent.None? || !parent.value.Dir? {
      CalmParent(fs.history, first, fs.source, fs.Parent(), src, |fs.history| - 1);
      NotDirectory(fs.root, fs.Parent());
      return Err(ParentUnavailable), before, after;
    }
    if Comparable(fs.destination, fs.source) {
      return Err(Nested), before, after;
    }
    var sourceBefore;
    sourceBefore, before := ObserveSource(fs, c, sha256, first, src);
    ghost var seen := fs.history;
    if sourceBefore.Err? {
      return Err(SourceRefused), before, after;
    }
    SubtreeNamed(start[first], fs.source);
    r, after := CopyFiles(fs, sourceBefore.value, c, sha256, there.value);
    ObservedLater(seen, fs.history, fs.source, c, sha256, before);
    CalmBefore(seen, fs.history, first, fs.source, fs.Parent(), src);
    CalmFrom(fs.history, first, |seen| - 1, fs.source, fs.Parent(), src);
    SoundOriginal(src.value, c, sha256, sourceBefore.value);
    ghost var copied := fs.history;
    if r.Err? {
      fs.RemoveTree();
      CalmBefore(copied, fs.history, first, fs.source, fs.Parent(), src);
    }
  }

  lemma CalmFrom(history: seq<Node>, first: nat, later: nat, source: Path, parent: Path, src: Option<Node>)
    requires first <= later
    ensures Calm(history, first, source, parent, src) ==> Calm(history, later, source, parent, src)
  {
    hide CalmAt;
  }

  lemma SoundOriginal(src: Node, c: Contract, sha256: Digest, m: seq<ManifestEntry>)
    ensures Named(src) && Accepts(src, c) && IsManifest(src, c, sha256, m) ==> Original(src, c, sha256, m)
  {
  }

  lemma AcceptedIsDirectory(src: Node, c: Contract)
    ensures Accepts(src, c) ==> src.Dir?
  {
  }

  lemma NotDirectory(root: Node, path: Path)
    ensures NodeAt(root, path).None? || !NodeAt(root, path).value.Dir? ==> !IsDirectory(root, path)
  {
  }
}
