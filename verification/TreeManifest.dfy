/** `_tree_manifest`: the listing of a directory tree by an explicit stack. */
module TreeManifest {
  import opened Bytes
  import opened Wrappers
  import opened TextOrder
  import opened PosixPath
  import opened FileTree

  datatype Kind = DirectoryKind | FileKind | SymlinkKind | OtherKind

  datatype Entry = Entry(relative: string, kind: Kind, mode: nat, size: nat, digest: Option<string>, target: Option<string>)

  type Digest = bytes -> string

  function EntryOf(path: seq<string>, node: Node, sha256: Digest): Entry {
    match node
    case Dir(mode, size, _) => Entry(Relative(path), DirectoryKind, mode, size, None, None)
    case File(mode, size, content) => Entry(Relative(path), FileKind, mode, size, Some(sha256(content)), None)
    case Symlink(mode, size, target) => Entry(Relative(path), SymlinkKind, mode, size, None, Some(target))
    case Other(mode, size) => Entry(Relative(path), OtherKind, mode, size, None, None)
  }

  /** The recursive definition: a node before its children, children in name order. */
  function Listing(path: seq<string>, node: Node, sha256: Digest): seq<Entry>
    decreases node, 1
  {
    [EntryOf(path, node, sha256)] +
    (if node.Dir? then Forest(path, node, SortKeys(node.children.Keys), sha256) else [])
  }

  function Forest(path: seq<string>, dir: Node, names: seq<string>, sha256: Digest): seq<Entry>
    requires dir.Dir? && forall n :: n in names ==> n in dir.children
    decreases dir, 0, |names|
  {
    if names == [] then []
    else Listing(path + [names[0]], dir.children[names[0]], sha256) + Forest(path, dir, names[1..], sha256)
  }

  // ---------- The stack ----------

  datatype Item = Item(path: seq<string>, node: Node)

  /** The children in name order, then `reversed`. */
  function ChildItems(path: seq<string>, dir: Node, names: seq<string>): seq<Item>
    requires dir.Dir? && forall n :: n in names ==> n in dir.children
  {
    if names == [] then [] else [Item(path + [names[0]], dir.children[names[0]])] + ChildItems(path, dir, names[1..])
  }

  function Reversed<T>(items: seq<T>): seq<T> {
    if items == [] then [] else Reversed(items[1..]) + [items[0]]
  }

  /** What is still to be listed: the top of the stack is its end. */
  function Pending(stack: seq<Item>, sha256: Digest): seq<Entry> {
    if stack == [] then []
    else
      var top := stack[|stack| - 1];
      Listing(top.path, top.node, sha256) + Pending(stack[..|stack| - 1], sha256)
  }

  function PendingNodes(stack: seq<Item>): nat {
    if stack == [] then 0 else NodeCount(stack[|stack| - 1].node) + PendingNodes(stack[..|stack| - 1])
  }

  lemma {:induction false} PushChildren(stack: seq<Item>, path: seq<string>, dir: Node, names: seq<string>, sha256: Digest)
    requires dir.Dir? && forall n :: n in names ==> n in dir.children
    ensures Pending(stack + Reversed(ChildItems(path, dir, names)), sha256) == Forest(path, dir, names, sha256) + Pending(stack, sha256)
    ensures PendingNodes(stack + Reversed(ChildItems(path, dir, names))) == ForestCount(dir, names) + PendingNodes(stack)
  {
    if names == [] {
      assert stack + Reversed(ChildItems(path, dir, names)) == stack;
    } else {
      PushChildren(stack, path, dir, names[1..], sha256);
      var rest := stack + Reversed(ChildItems(path, dir, names[1..]));
      var first := Item(path + [names[0]], dir.children[names[0]]);
      assert ChildItems(path, dir, names)[1..] == ChildItems(path, dir, names[1..]);
      var all := stack + Reversed(ChildItems(path, dir, names));
      assert all == rest + [first];
      assert all[..|all| - 1] == rest;
    }
  }

  /** One round of the loop, seen from what is still to be listed. */
  function AfterTop(stack: seq<Item>): seq<Item>
    requires stack != []
  {
    var top := stack[|stack| - 1];
    var below := stack[..|stack| - 1];
    if top.node.Dir? then below + Reversed(ChildItems(top.path, top.node, SortKeys(top.node.children.Keys))) else below
  }

  lemma VisitTop(stack: seq<Item>, sha256: Digest)
    requires stack != []
    ensures var top := stack[|stack| - 1];
      Pending(stack, sha256) == [EntryOf(top.path, top.node, sha256)] + Pending(AfterTop(stack), sha256)
    ensures PendingNodes(AfterTop(stack)) < PendingNodes(stack)
  {
    hide Forest, EntryOf, ForestCount;
    var top := stack[|stack| - 1];
    var below := stack[..|stack| - 1];
    var names := if top.node.Dir? then SortKeys(top.node.children.Keys) else [];
    var forest := if top.node.Dir? then Forest(top.path, top.node, names, sha256) else [];
    HeadFirst(EntryOf(top.path, top.node, sha256), forest, Pending(below, sha256));
    assert [] + Pending(below, sha256) == Pending(below, sha256);
    if top.node.Dir? {
      PushChildren(below, top.path, top.node, names, sha256);
    }
  }

  /** The loop lists exactly the recursive preorder, for every finite tree. */
  method TreeManifest(root: Node, sha256: Digest) returns (entries: seq<Entry>)
    ensures entries == Listing([], root, sha256)
    ensures forall e :: e in entries ==> exists path :: DescribedAt(e, [], root, path, sha256)
    ensures forall path :: NodeAt(root, path).Some? ==> exists e :: e in entries && DescribedAt(e, [], root, path, sha256)
  {
    hide EntryOf, Listing, Pending, PendingNodes;
    var pending := [Item([], root)];
    entries := [];
    StackOfOne(root, sha256);
    while pending != []
      invariant entries + Pending(pending, sha256) == Listing([], root, sha256)
      decreases PendingNodes(pending)
    {
      VisitTop(pending, sha256);
      ghost var rest := Pending(AfterTop(pending), sha256);
      var top := pending[|pending| - 1];
      pending := pending[..|pending| - 1];
      if top.node.Dir? {
        var names := SortKeys(top.node.children.Keys);
        pending := pending + Reversed(ChildItems(top.path, top.node, names));
      }
      var entry := EntryOf(top.path, top.node, sha256);
      assert entries + ([entry] + rest) == entries + [entry] + rest;
      entries := entries + [entry];
    }
    NothingPending(sha256);
    forall e | e in entries ensures exists path :: DescribedAt(e, [], root, path, sha256) {
      ListingDescribes([], root, sha256, e);
    }
    forall path | NodeAt(root, path).Some? ensures exists e :: e in entries && DescribedAt(e, [], root, path, sha256) {
      var e := NodeIsListed([], root, path, sha256);
      assert e in entries && DescribedAt(e, [], root, path, sha256);
    }
  }

  lemma StackOfOne(root: Node, sha256: Digest)
    ensures [] + Pending([Item([], root)], sha256) == Listing([], root, sha256)
  {
    assert [Item([], root)][..0] == [];
    assert Pending([Item([], root)], sha256) == Listing([], root, sha256) + Pending([], sha256);
  }

  lemma NothingPending(sha256: Digest)
    ensures Pending([], sha256) == []
  {
  }

  // ---------- What the entries say ----------

  /** The entry shows this node at this path, field by field. */
  predicate Describes(e: Entry, path: seq<string>, node: Node, sha256: Digest) {
    && e.relative == Relative(path) && e.mode == node.mode && e.size == node.size
    && match node
       case Dir(_, _, _) => e.kind == DirectoryKind && e.digest == None && e.target == None
       case File(_, _, content) => e.kind == FileKind && e.digest == Some(sha256(content)) && e.target == None
       case Symlink(_, _, target) => e.kind == SymlinkKind && e.digest == None && e.target == Some(target)
       case Other(_, _) => e.kind == OtherKind && e.digest == None && e.target == None
  }

  ghost predicate DescribedAt(e: Entry, path: seq<string>, node: Node, rest: seq<string>, sha256: Digest) {
    NodeAt(node, rest).Some? && Describes(e, path + rest, NodeAt(node, rest).value, sha256)
  }

  lemma {:induction false} ListingDescribes(path: seq<string>, node: Node, sha256: Digest, e: Entry)
    requires e in Listing(path, node, sha256)
    ensures exists rest :: DescribedAt(e, path, node, rest, sha256)
    decreases node, 1
  {
    if e == EntryOf(path, node, sha256) {
      assert path + [] == path;
      assert DescribedAt(e, path, node, [], sha256);
    } else {
      ForestDescribes(path, node, SortKeys(node.children.Keys), sha256, e);
    }
  }

  lemma {:induction false} ForestDescribes(path: seq<string>, dir: Node, names: seq<string>, sha256: Digest, e: Entry)
    requires dir.Dir? && forall n :: n in names ==> n in dir.children
    requires e in Forest(path, dir, names, sha256)
    ensures exists rest :: DescribedAt(e, path, dir, rest, sha256)
    decreases dir, 0, |names|
  {
    hide Listing;
    var child := path + [names[0]];
    if e in Listing(child, dir.children[names[0]], sha256) {
      ListingDescribes(child, dir.children[names[0]], sha256, e);
      var rest :| DescribedAt(e, child, dir.children[names[0]], rest, sha256);
      assert ([names[0]] + rest)[1..] == rest && child + rest == path + ([names[0]] + rest);
      assert DescribedAt(e, path, dir, [names[0]] + rest, sha256);
    } else {
      ForestDescribes(path, dir, names[1..], sha256, e);
    }
  }

  lemma {:induction false} NodeIsListed(path: seq<string>, node: Node, rest: seq<string>, sha256: Digest) returns (e: Entry)
    requires NodeAt(node, rest).Some?
    ensures e in Listing(path, node, sha256) && Describes(e, path + rest, NodeAt(node, rest).value, sha256)
    decreases node, 1
  {
    if rest == [] {
      e := EntryOf(path, node, sha256);
      assert path + [] == path;
    } else {
      var names := SortKeys(node.children.Keys);
      assert rest[0] in names;
      e := NodeInForest(path, node, names, rest, sha256);
    }
  }

  lemma {:induction false} NodeInForest(path: seq<string>, dir: Node, names: seq<string>, rest: seq<string>, sha256: Digest)
    returns (e: Entry)
    requires dir.Dir? && (forall n :: n in names ==> n in dir.children) && rest != [] && rest[0] in names
    requires NodeAt(dir, rest).Some?
    ensures e in Forest(path, dir, names, sha256) && Describes(e, path + rest, NodeAt(dir, rest).value, sha256)
    decreases dir, 0, |names|
  {
    hide Listing;
    if rest[0] == names[0] {
      e := NodeIsListed(path + [names[0]], dir.children[names[0]], rest[1..], sha256);
      assert path + [names[0]] + rest[1..] == path + rest by { assert rest == [rest[0]] + rest[1..]; }
    } else {
      e := NodeInForest(path, dir, names[1..], rest, sha256);
    }
  }

  // ---------- The listing determines the tree ----------

  /** The entry lies strictly below the path. */
  ghost predicate Below(path: seq<string>, e: Entry) {
    exists rest :: rest != [] && PlainParts(path + rest) && e.relative == Relative(path + rest)
  }

  ghost predicate StartsOutside(path: seq<string>, entries: seq<Entry>) {
    entries != [] ==> !Below(path, entries[0])
  }

  lemma {:induction false} ListingDetermines(path: seq<string>, a: Node, b: Node, restA: seq<Entry>, restB: seq<Entry>, sha256: Digest)
    requires Injective(sha256) && PlainParts(path) && Named(a) && Named(b)
    requires StartsOutside(path, restA) && StartsOutside(path, restB)
    requires Listing(path, a, sha256) + restA == Listing(path, b, sha256) + restB
    ensures a == b && restA == restB
    decreases a, 1
  {
    ListingHead(path, a, restA, sha256);
    ListingHead(path, b, restB, sha256);
    if a.Dir? {
      var na, nb := SortKeys(a.children.Keys), SortKeys(b.children.Keys);
      ForestDetermines(path, a, na, b, nb, restA, restB, sha256);
      assert forall n :: n in a.children.Keys <==> n in b.children.Keys;
      assert a.children == b.children;
    }
  }

  lemma ListingHead(path: seq<string>, a: Node, rest: seq<Entry>, sha256: Digest)
    ensures var all := Listing(path, a, sha256) + rest;
      && all != [] && all[0] == EntryOf(path, a, sha256)
      && all[1..] == (if a.Dir? then Forest(path, a, SortKeys(a.children.Keys), sha256) else []) + rest
    ensures !a.Dir? ==> (Listing(path, a, sha256) + rest)[1..] == rest
  {
    hide Forest, EntryOf;
    var tail := if a.Dir? then Forest(path, a, SortKeys(a.children.Keys), sha256) else [];
    assert Listing(path, a, sha256) == [EntryOf(path, a, sha256)] + tail;
    HeadFirst(EntryOf(path, a, sha256), tail, rest);
  }

  lemma HeadFirst<T>(head: T, tail: seq<T>, rest: seq<T>)
    ensures var all := [head] + tail + rest;
      all != [] && all[0] == head && all[1..] == tail + rest && all == [head] + (tail + rest)
    ensures tail == [] ==> ([head] + tail + rest)[1..] == rest
  {
  }

  lemma {:induction false} ForestDetermines(path: seq<string>, a: Node, na: seq<string>, b: Node, nb: seq<string>,
                                            restA: seq<Entry>, restB: seq<Entry>, sha256: Digest)
    requires Injective(sha256) && PlainParts(path) && a.Dir? && b.Dir? && Named(a) && Named(b)
    requires (forall n :: n in na ==> n in a.children) && (forall n :: n in nb ==> n in b.children)
    requires StartsOutside(path, restA) && StartsOutside(path, restB)
    requires Forest(path, a, na, sha256) + restA == Forest(path, b, nb, sha256) + restB
    requires StrictlySorted(na) && StrictlySorted(nb)
    ensures na == nb && restA == restB && forall n :: n in na ==> a.children[n] == b.children[n]
    decreases a, 0, |na|
  {
    hide Listing, Relative;
    ForestStartsBelow(path, a, na, restA, sha256);
    ForestStartsBelow(path, b, nb, restB, sha256);
    if na == [] || nb == [] {
      assert [] + restA == restA && [] + restB == restB;
    } else {
      var n := na[0];
      var pathN := path + [n];
      var moreA := Forest(path, a, na[1..], sha256) + restA;
      var moreB := Forest(path, b, nb[1..], sha256) + restB;
      RelativeInjective(pathN, path + [nb[0]]);
      assert n == pathN[|path|] == nb[0];
      ForestSplits(path, a, na, restA, sha256);
      ForestSplits(path, b, nb, restB, sha256);
      NextIsOutside(path, a, na, restA, sha256);
      NextIsOutside(path, b, nb, restB, sha256);
      ListingDetermines(pathN, a.children[n], b.children[n], moreA, moreB, sha256);
      ForestDetermines(path, a, na[1..], b, nb[1..], restA, restB, sha256);
      assert na == [n] + na[1..] && nb == [n] + nb[1..];
    }
  }

  lemma ForestSplits(path: seq<string>, dir: Node, names: seq<string>, rest: seq<Entry>, sha256: Digest)
    requires dir.Dir? && names != [] && forall n :: n in names ==> n in dir.children
    ensures Forest(path, dir, names, sha256) + rest ==
            Listing(path + [names[0]], dir.children[names[0]], sha256) + (Forest(path, dir, names[1..], sha256) + rest)
  {
  }

  /** A non-empty forest starts with an entry below its path. */
  lemma ForestStartsBelow(path: seq<string>, dir: Node, names: seq<string>, rest: seq<Entry>, sha256: Digest)
    requires PlainParts(path) && dir.Dir? && Named(dir) && forall n :: n in names ==> n in dir.children
    ensures names != [] ==> var all := Forest(path, dir, names, sha256) + rest;
              all != [] && !StartsOutside(path, all) && PlainParts(path + [names[0]]) &&
              all[0].relative == Relative(path + [names[0]])
    ensures names == [] ==> Forest(path, dir, names, sha256) + rest == rest
  {
    if names != [] {
      assert names[0] in names;
      assert PlainParts(path + [names[0]]);
      ListingHead(path + [names[0]], dir.children[names[0]], Forest(path, dir, names[1..], sha256) + rest, sha256);
      ForestSplits(path, dir, names, rest, sha256);
    }
  }

  /** After the listing of one child comes an entry that is not below that child. */
  lemma NextIsOutside(path: seq<string>, dir: Node, names: seq<string>, rest: seq<Entry>, sha256: Digest)
    requires PlainParts(path) && dir.Dir? && Named(dir) && names != [] && forall n :: n in names ==> n in dir.children
    requires StartsOutside(path, rest)
    ensures StartsOutside(path + [names[0]], Forest(path, dir, names[1..], sha256) + rest)
  {
    hide Forest, Relative;
    var more := Forest(path, dir, names[1..], sha256) + rest;
    var child := path + [names[0]];
    ForestStartsBelow(path, dir, names[1..], rest, sha256);
    if |names| > 1 {
      var sibling := path + [names[1]];
      forall tail | tail != [] && PlainParts(child + tail) && Relative(sibling) == Relative(child + tail)
        ensures sibling == child + tail
      {
        RelativeInjective(sibling, child + tail);
      }
      assert forall tail: seq<string> :: tail != [] ==> |child + tail| > |sibling|;
    } else {
      assert more == rest;
      forall tail | tail != [] && PlainParts(child + tail) && more != [] ensures more[0].relative != Relative(child + tail) {
        assert child + tail == path + ([names[0]] + tail);
      }
    }
  }

  /** Two trees with one manifest are the same tree, for an injective digest. */
  lemma ManifestDeterminesTree(a: Node, b: Node, sha256: Digest)
    requires Injective(sha256) && Named(a) && Named(b)
    requires Listing([], a, sha256) == Listing([], b, sha256)
    ensures a == b
  {
    assert Listing([], a, sha256) + [] == Listing([], b, sha256) + [];
    ListingDetermines([], a, b, [], [], sha256);
  }
}
