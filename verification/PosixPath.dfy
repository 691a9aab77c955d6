/** Relative POSIX paths as `pathlib.PurePosixPath` reads and prints them. */
module PosixPath {
  import opened Bytes
  import opened Wrappers
  import Utf8

  /** `text.split("/")`. */
  function Split(text: string): (parts: seq<string>)
    ensures parts != []
  {
    if text == "" then [""]
    else
      var rest := Split(text[1..]);
      if text[0] == '/' then [""] + rest else [[text[0]] + rest[0]] + rest[1..]
  }

  /** `"/".join(parts)`. */
  function Join(parts: seq<string>): string {
    if parts == [] then "" else if |parts| == 1 then parts[0] else parts[0] + "/" + Join(parts[1..])
  }

  function Meaningful(parts: seq<string>): seq<string> {
    if parts == [] then []
    else (if parts[0] == "" || parts[0] == "." then [] else [parts[0]]) + Meaningful(parts[1..])
  }

  /** `PurePosixPath(text).parts` of a path that is not absolute. */
  function Parts(text: string): seq<string> { Meaningful(Split(text)) }

  /** `PurePosixPath(...).as_posix()` of a relative path. */
  function AsPosix(parts: seq<string>): string { if parts == [] then "." else Join(parts) }

  /** A name that a directory entry can have. */
  predicate PlainPart(part: string) { part != "" && part != "." && part != ".." && '/' !in part }

  predicate PlainParts(parts: seq<string>) {
    forall i :: 0 <= i < |parts| ==> PlainPart(parts[i])
  }

  predicate ValidPart(part: string) { PlainPart(part) && '\\' !in part }

  predicate ValidParts(parts: seq<string>) {
    forall i :: 0 <= i < |parts| ==> ValidPart(parts[i])
  }

  lemma {:induction false} SplitPart(part: string, rest: string)
    requires '/' !in part
    ensures Split(part) == [part]
    ensures Split(part + "/" + rest) == [part] + Split(rest)
  {
    if part == "" {
      assert ("" + "/" + rest)[1..] == rest;
    } else {
      SplitPart(part[1..], rest);
      assert (part + "/" + rest)[1..] == part[1..] + "/" + rest;
      assert [part[0]] + part[1..] == part;
    }
  }

  lemma {:induction false} SplitJoin(parts: seq<string>)
    requires parts != [] && PlainParts(parts)
    ensures Split(Join(parts)) == parts && Meaningful(parts) == parts
  {
    if |parts| == 1 {
      SplitPart(parts[0], "");
      assert parts == [parts[0]];
      assert Meaningful(parts[1..]) == [];
    } else {
      SplitJoin(parts[1..]);
      SplitPart(parts[0], Join(parts[1..]));
      assert parts == [parts[0]] + parts[1..];
    }
  }

  lemma {:induction false} SplitHasNoSlash(text: string)
    ensures forall i :: 0 <= i < |Split(text)| ==> '/' !in Split(text)[i]
  {
    if text != "" {
      SplitHasNoSlash(text[1..]);
    }
  }

  lemma {:induction false} SplitMembers(text: string, c: char)
    requires c !in text
    ensures forall i :: 0 <= i < |Split(text)| ==> c !in Split(text)[i]
  {
    if text != "" {
      SplitMembers(text[1..], c);
    }
  }

  lemma {:induction false} MeaningfulMembers(parts: seq<string>)
    ensures forall p :: p in Meaningful(parts) <==> p in parts && p != "" && p != "."
  {
    if parts != [] {
      MeaningfulMembers(parts[1..]);
      assert forall p :: p in parts <==> p == parts[0] || p in parts[1..];
    }
  }

  /** Joining is injective on lists of names. */
  lemma JoinInjective(a: seq<string>, b: seq<string>)
    requires a != [] && b != [] && PlainParts(a) && PlainParts(b) && Join(a) == Join(b)
    ensures a == b
  {
    SplitJoin(a);
    SplitJoin(b);
  }

  lemma {:induction false} JoinMembers(parts: seq<string>)
    requires ValidParts(parts)
    ensures '\\' !in Join(parts)
    ensures parts != [] ==> Join(parts) != "" && Join(parts)[0] != '/' && Join(parts) != "."
  {
    if |parts| == 1 {
      assert ValidPart(parts[0]);
    } else if parts != [] {
      assert ValidPart(parts[0]);
      JoinMembers(parts[1..]);
      var text := Join(parts);
      assert text[|parts[0]|] == '/';
      assert '\\' !in parts[0] + "/" && text[0] == parts[0][0];
    }
  }

  // ---------- Safe archive and Git paths ----------

  const MAX_ARCHIVE_MEMBER_NAME_BYTES: nat := 4096

  predicate Absolute(text: string) { text != "" && text[0] == '/' }

  /** `_safe_member_path`: the parts of an accepted path, or `None` for a refused one. */
  function SafeMemberPath(raw: string): Option<seq<string>> {
    if raw == "" || |Utf8.Encode(raw)| > MAX_ARCHIVE_MEMBER_NAME_BYTES || '\\' in raw || Absolute(raw)
       || ".." in Parts(raw) || AsPosix(Parts(raw)) != raw
    then None
    else Some(Parts(raw))
  }

  /** The accepted texts are exactly the joined lists of valid parts within the length limit, and ".". */
  lemma SafePathsAreJoins(raw: string)
    ensures SafeMemberPath(raw).Some? <==>
            raw == "." || exists parts :: JoinsTo(parts, raw) && |Utf8.Encode(raw)| <= MAX_ARCHIVE_MEMBER_NAME_BYTES
    ensures SafeMemberPath(raw).Some? && raw != "." ==> JoinsTo(SafeMemberPath(raw).value, raw)
    ensures SafeMemberPath(".") == Some([])
  {
    DotIsSafe();
    if SafeMemberPath(raw).Some? && raw != "." {
      var parts := Parts(raw);
      SplitHasNoSlash(raw);
      SplitMembers(raw, '\\');
      MeaningfulMembers(Split(raw));
      forall i | 0 <= i < |parts| ensures ValidPart(parts[i]) {
        assert parts[i] in parts;
      }
      assert JoinsTo(parts, raw);
    }
    forall parts | JoinsTo(parts, raw) && |Utf8.Encode(raw)| <= MAX_ARCHIVE_MEMBER_NAME_BYTES
      ensures SafeMemberPath(raw) == Some(parts)
    {
      JoinIsSafe(parts);
    }
  }

  ghost predicate JoinsTo(parts: seq<string>, raw: string) {
    parts != [] && ValidParts(parts) && Join(parts) == raw
  }

  lemma JoinIsSafe(parts: seq<string>)
    requires parts != [] && ValidParts(parts) && |Utf8.Encode(Join(parts))| <= MAX_ARCHIVE_MEMBER_NAME_BYTES
    ensures SafeMemberPath(Join(parts)) == Some(parts)
  {
    SplitJoin(parts);
    JoinMembers(parts);
  }

  /** The path "." is accepted although it has no parts. */
  lemma DotIsSafe()
    ensures SafeMemberPath(".") == Some([])
  {
    SplitPart(".", "");
    assert Parts(".") == [] by { assert ["."][1..] == []; }
    assert |Utf8.Encode(".")| == 1 by { assert "."[1..] == ""; }
  }

  /** It is the only such path. */
  lemma OnlyDotHasNoParts(raw: string)
    ensures SafeMemberPath(raw) == Some([]) <==> raw == "."
  {
    hide SafeMemberPath;
    SafePathsAreJoins(raw);
  }
}
