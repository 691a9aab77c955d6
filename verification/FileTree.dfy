/** A directory tree as the file system shows it, and the relative path of a node. */
module FileTree {
  import opened Bytes
  import opened Wrappers
  import opened PosixPath
  import opened TextOrder

  /** `size` is `st_size`, which for directories and links is whatever the file system says. */
  datatype Node =
    | Dir(mode: nat, size: nat, children: map<string, Node>)
    | File(mode: nat, size: nat, content: bytes)
    | Symlink(mode: nat, size: nat, target: string)
    | Other(mode: nat, size: nat)

  /** Every entry name is one the file system allows. */
  predicate Named(node: Node) {
    node.Dir? ==> forall n :: n in node.children ==> PlainPart(n) && Named(node.children[n])
  }

  /** "." for the root, else the names joined by slashes. */
  function Relative(path: seq<string>): string { AsPosix(path) }

  lemma {:induction false} RelativeInjective(a: seq<string>, b: seq<string>)
    requires PlainParts(a) && PlainParts(b) && Relative(a) == Relative(b)
    ensures a == b
  {
    if a == [] || b == [] {
      JoinIsNotDot(a);
      JoinIsNotDot(b);
    } else {
      JoinInjective(a, b);
    }
  }

  lemma JoinIsNotDot(parts: seq<string>)
    requires PlainParts(parts)
    ensures parts != [] ==> Join(parts) != "."
  {
    if parts != [] {
      SplitJoin(parts);
      SplitPart(".", "");
      assert Join(parts) == "." ==> parts == ["."];
      assert PlainPart(parts[0]);
    }
  }

  function NodeAt(root: Node, path: seq<string>): Option<Node> {
    if path == [] then Some(root)
    else if root.Dir? && path[0] in root.children then NodeAt(root.children[path[0]], path[1..])
    else None
  }

  /** What a relative path looks like. */
  lemma RelativeInWords(a: string, b: string, rest: seq<string>)
    ensures Relative([]) == "." && Relative([a]) == a && Relative([a, b] + rest) == a + "/" + Relative([b] + rest)
  {
    assert ([a, b] + rest)[1..] == [b] + rest;
  }

  // ---------- Number of nodes, the measure of the traversals ----------

  function NodeCount(node: Node): (n: nat)
    ensures n > 0
    decreases node, 1
  {
    if node.Dir? then 1 + ForestCount(node, SortKeys(node.children.Keys)) else 1
  }

  function ForestCount(dir: Node, names: seq<string>): nat
    requires dir.Dir? && forall n :: n in names ==> n in dir.children
    decreases dir, 0, |names|
  {
    if names == [] then 0 else NodeCount(dir.children[names[0]]) + ForestCount(dir, names[1..])
  }
}
