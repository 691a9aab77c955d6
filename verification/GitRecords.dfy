/** The NUL-separated listings of `git ls-files --stage -z` and `git ls-tree -r -z`. */
module GitRecords {
  import opened Bytes
  import opened Wrappers
  import opened ByteText
  import opened PosixPath
  import Utf8

  datatype GitBlobEntry = GitBlobEntry(mode: string, objectId: string, path: string)

  datatype Listing = Index | Tree

  datatype GitError = Malformed | Unmerged | NotABlob | NotUtf8 | UnsafeGitPath | DuplicatePath | NotAscii | BadObjectId

  predicate IsHex(c: char) { '0' <= c <= '9' || 'a' <= c <= 'f' }

  /** `[0-9a-f]{40}(?:[0-9a-f]{24})?` as a full match. */
  predicate IsObjectId(s: string) {
    (|s| == 40 || |s| == 64) && forall i :: 0 <= i < |s| ==> IsHex(s[i])
  }

  // ---------- One record ----------

  /** `_decode_git_path`, then `as_posix()`. */
  function DecodeGitPath(raw: bytes): Result<string, GitError> {
    match Utf8.Decode(raw)
    case None => Err(NotUtf8)
    case Some(text) => if SafeMemberPath(text).None? then Err(UnsafeGitPath) else Ok(text)
  }

  function StageZero(): bytes { [48] }
  function BlobWord(): bytes { [98, 108, 111, 98] }

  function ParseRecord(listing: Listing, record: bytes, paths: set<string>): Result<GitBlobEntry, GitError> {
    var p := PartitionOn(record, TAB);
    var fields := Fields(p.head);
    if !p.found || |fields| != 3 then Err(Malformed)
    else if listing == Index && fields[2] != StageZero() then Err(Unmerged)
    else if listing == Tree && fields[1] != BlobWord() then Err(NotABlob)
    else match DecodeGitPath(p.tail)
      case Err(e) => Err(e)
      case Ok(path) =>
        if path in paths then Err(DuplicatePath)
        else match (DecodeAscii(fields[0]), DecodeAscii(if listing == Index then fields[1] else fields[2]))
          case (Some(mode), Some(id)) => if IsObjectId(id) then Ok(GitBlobEntry(mode, id, path)) else Err(BadObjectId)
          case _ => Err(NotAscii)
  }

  /** What the parser makes of the records that follow those whose paths are given. */
  function ParseRecords(listing: Listing, records: seq<bytes>, paths: set<string>): Result<seq<GitBlobEntry>, GitError> {
    if records == [] then Ok([])
    else if records[0] == [] then ParseRecords(listing, records[1..], paths)
    else match ParseRecord(listing, records[0], paths)
      case Err(e) => Err(e)
      case Ok(entry) =>
        match ParseRecords(listing, records[1..], paths + {entry.path})
        case Err(e) => Err(e)
        case Ok(entries) => Ok([entry] + entries)
  }

  function Parse(listing: Listing, payload: bytes): Result<seq<GitBlobEntry>, GitError> {
    ParseRecords(listing, SplitOn(payload, NUL), {})
  }

  /** `_parse_git_index_entries` and `_parse_git_tree_entries`, which differ in two header fields. */
  method ParseEntries(listing: Listing, payload: bytes) returns (r: Result<seq<GitBlobEntry>, GitError>)
    ensures r == Parse(listing, payload)
  {
    hide Fields, PartitionOn, DecodeGitPath, DecodeAscii, SplitOn, IsObjectId;
    var records := SplitOn(payload, NUL);
    var entries: seq<GitBlobEntry> := [];
    var paths: set<string> := {};
    assert records[0..] == records;
    assert forall rest: seq<GitBlobEntry> :: [] + rest == rest;
    for i := 0 to |records|
      invariant match ParseRecords(listing, records[i..], paths)
        case Err(e) => Parse(listing, payload) == Err(e)
        case Ok(rest) => Parse(listing, payload) == Ok(entries + rest)
    {
      var record := records[i];
      assert records[i..][0] == record && records[i..][1..] == records[i + 1..];
      if record != [] {
        var p := PartitionOn(record, TAB);
        var fields := Fields(p.head);
        if !p.found || |fields| != 3 {
          return Err(Malformed);
        }
        if listing == Index && fields[2] != StageZero() {
          return Err(Unmerged);
        }
        if listing == Tree && fields[1] != BlobWord() {
          return Err(NotABlob);
        }
        var path := DecodeGitPath(p.tail);
        if path.Err? {
          return Err(path.error);
        }
        if path.value in paths {
          return Err(DuplicatePath);
        }
        var mode := DecodeAscii(fields[0]);
        var objectId := DecodeAscii(if listing == Index then fields[1] else fields[2]);
        if mode.None? || objectId.None? {
          return Err(NotAscii);
        }
        if !IsObjectId(objectId.value) {
          return Err(BadObjectId);
        }
        var entry := GitBlobEntry(mode.value, objectId.value, path.value);
        paths := paths + {path.value};
        ghost var rest := ParseRecords(listing, records[i + 1..], paths);
        assert rest.Ok? ==> entries + ([entry] + rest.value) == entries + [entry] + rest.value;
        entries := entries + [entry];
      }
    }
    assert records[|records|..] == [] && entries + [] == entries;
    r := Ok(entries);
  }

  // ---------- Printing ----------

  predicate PrintableWord(s: string) {
    s != "" && IsAscii(s) && forall i :: 0 <= i < |s| ==> s[i] != '\0' && !IsSpace((s[i] as int) as byte)
  }

  predicate PrintableEntry(e: GitBlobEntry) {
    PrintableWord(e.mode) && IsObjectId(e.objectId) && SafeMemberPath(e.path).Some? && '\0' !in e.path
  }

  ghost predicate Printable(entries: seq<GitBlobEntry>) {
    && (forall i :: 0 <= i < |entries| ==> PrintableEntry(entries[i]))
    && (forall i, j :: 0 <= i < j < |entries| ==> entries[i].path != entries[j].path)
  }

  lemma ObjectIdsArePrintable(id: string)
    requires IsObjectId(id)
    ensures PrintableWord(id)
  {
  }

  function Header(listing: Listing, e: GitBlobEntry): bytes
    requires PrintableEntry(e)
  {
    ObjectIdsArePrintable(e.objectId);
    if listing == Index then Ascii(e.mode) + [SPACE] + Ascii(e.objectId) + [SPACE] + StageZero()
    else Ascii(e.mode) + [SPACE] + BlobWord() + [SPACE] + Ascii(e.objectId)
  }

  function PrintRecord(listing: Listing, e: GitBlobEntry): bytes
    requires PrintableEntry(e)
  {
    Header(listing, e) + [TAB] + Utf8.Encode(e.path)
  }

  /** The listing that Git prints for these entries. */
  function Print(listing: Listing, entries: seq<GitBlobEntry>): bytes
    requires forall i :: 0 <= i < |entries| ==> PrintableEntry(entries[i])
  {
    if entries == [] then [] else PrintRecord(listing, entries[0]) + [NUL] + Print(listing, entries[1..])
  }

  lemma {:induction false} EncodeWithoutNul(s: string)
    requires '\0' !in s
    ensures NUL !in Utf8.Encode(s)
  {
    if s != "" {
      EncodeWithoutNul(s[1..]);
      assert s[0] != '\0';
      CharWithoutNul(s[0]);
    }
  }

  lemma CharWithoutNul(c: char)
    requires c != '\0'
    ensures NUL !in Utf8.EncodeChar(c)
  {
  }

  lemma WordBytes(s: string)
    requires PrintableWord(s)
    ensures IsWord(Ascii(s)) && NUL !in Ascii(s) && TAB !in Ascii(s) && DecodeAscii(Ascii(s)) == Some(s)
  {
    DecodeAsciiOf(s);
  }

  lemma HeaderFields(listing: Listing, e: GitBlobEntry)
    requires PrintableEntry(e)
    ensures TAB !in Header(listing, e) && NUL !in Header(listing, e)
    ensures Fields(Header(listing, e)) ==
            if listing == Index then [Ascii(e.mode), Ascii(e.objectId), StageZero()] else [Ascii(e.mode), BlobWord(), Ascii(e.objectId)]
  {
    hide Fields, PrintableWord, IsObjectId, IsWord;
    ObjectIdsArePrintable(e.objectId);
    WordBytes(e.mode);
    WordBytes(e.objectId);
    FixedWords();
    if listing == Index { ThreeFields(Ascii(e.mode), Ascii(e.objectId), StageZero()); }
    else { ThreeFields(Ascii(e.mode), BlobWord(), Ascii(e.objectId)); }
  }

  lemma FixedWords()
    ensures IsWord(StageZero()) && NUL !in StageZero() && TAB !in StageZero()
    ensures IsWord(BlobWord()) && NUL !in BlobWord() && TAB !in BlobWord()
  {
  }

  lemma ParsePrintedRecord(listing: Listing, e: GitBlobEntry, paths: set<string>)
    requires PrintableEntry(e) && e.path !in paths
    ensures ParseRecord(listing, PrintRecord(listing, e), paths) == Ok(e)
    ensures PrintRecord(listing, e) != [] && NUL !in PrintRecord(listing, e)
  {
    hide SafeMemberPath, Utf8.Decode, Utf8.Encode, Fields, Header;
    ObjectIdsArePrintable(e.objectId);
    WordBytes(e.mode);
    WordBytes(e.objectId);
    HeaderFields(listing, e);
    PartitionFirst(Header(listing, e), Utf8.Encode(e.path), TAB);
    Utf8.DecodeEncode(e.path);
    EncodeWithoutNul(e.path);
  }

  lemma {:induction false} ParsePrintedRecords(listing: Listing, entries: seq<GitBlobEntry>, paths: set<string>)
    requires Printable(entries) && forall i :: 0 <= i < |entries| ==> entries[i].path !in paths
    ensures ParseRecords(listing, SplitOn(Print(listing, entries), NUL), paths) == Ok(entries)
  {
    hide ParseRecord, PrintRecord, PrintableEntry;
    if entries == [] {
      var none := SplitOn([], NUL);
      assert none == [[]] && none[1..] == [];
    } else {
      var e, rest := entries[0], entries[1..];
      ParsePrintedRecord(listing, e, paths);
      SplitOnFirst(PrintRecord(listing, e), Print(listing, rest), NUL);
      var records := SplitOn(Print(listing, entries), NUL);
      assert records[0] == PrintRecord(listing, e) && records[1..] == SplitOn(Print(listing, rest), NUL);
      ParsePrintedRecords(listing, rest, paths + {e.path});
      assert entries == [e] + rest;
    }
  }

  // ---------- Main results ----------

  /** Printing and parsing give the same entries in the same order; paths may hold TAB and LF. */
  lemma RoundTrip(listing: Listing, entries: seq<GitBlobEntry>)
    requires Printable(entries)
    ensures Parse(listing, Print(listing, entries)) == Ok(entries)
  {
    ParsePrintedRecords(listing, entries, {});
  }

  /** Both parsers read the same entries from the two listings of one content. */
  lemma ParsersAgree(entries: seq<GitBlobEntry>)
    requires Printable(entries)
    ensures Parse(Index, Print(Index, entries)) == Parse(Tree, Print(Tree, entries))
  {
    RoundTrip(Index, entries);
    RoundTrip(Tree, entries);
  }

  lemma FirstField(head: bytes)
    requires Fields(head) != []
    ensures IsWord(Fields(head)[0]) && forall i :: 0 <= i < |Fields(head)[0]| ==> Fields(head)[0][i] in head
  {
    FieldsAreWords([], head);
    var field := Fields(head)[0];
    forall i | 0 <= i < |field| ensures field[i] in head {
      assert field[i] in [] + head;
    }
  }

  lemma HeadIsPart(record: bytes, b: byte)
    requires b in PartitionOn(record, TAB).head
    ensures b in record
  {
  }

  lemma AcceptedRecord(listing: Listing, record: bytes, paths: set<string>)
    requires NUL !in record && ParseRecord(listing, record, paths).Ok?
    ensures PrintableEntry(ParseRecord(listing, record, paths).value)
    ensures ParseRecord(listing, record, paths).value.path !in paths
  {
    hide SafeMemberPath, Utf8.Decode, Utf8.Encode, Fields, PartitionOn, IsObjectId, IsSpace;
    var e := ParseRecord(listing, record, paths).value;
    var p := PartitionOn(record, TAB);
    FirstField(p.head);
    var field := Fields(p.head)[0];
    assert IsWord(field) && Ascii(e.mode) == field;
    forall i | 0 <= i < |e.mode| ensures e.mode[i] != '\0' && !IsSpace((e.mode[i] as int) as byte) {
      HeadIsPart(record, field[i]);
    }
    Utf8.EncodeDecode(p.tail);
    NulInText(e.path);
    TailIsPart(record);
  }

  lemma TailIsPart(record: bytes)
    requires NUL !in record
    ensures NUL !in PartitionOn(record, TAB).tail
  {
  }

  lemma {:induction false} NulInText(s: string)
    ensures '\0' in s ==> NUL in Utf8.Encode(s)
  {
    if s != "" {
      NulInText(s[1..]);
      if s[0] == '\0' { assert Utf8.EncodeChar(s[0])[0] == NUL; }
    }
  }

  lemma {:induction false} AcceptedRecords(listing: Listing, records: seq<bytes>, paths: set<string>)
    requires forall i :: 0 <= i < |records| ==> NUL !in records[i]
    requires ParseRecords(listing, records, paths).Ok?
    ensures Printable(ParseRecords(listing, records, paths).value)
    ensures forall i :: 0 <= i < |ParseRecords(listing, records, paths).value| ==>
              ParseRecords(listing, records, paths).value[i].path !in paths
  {
    hide ParseRecord, PrintableEntry;
    if records != [] {
      if records[0] == [] {
        AcceptedRecords(listing, records[1..], paths);
      } else {
        AcceptedRecord(listing, records[0], paths);
        AcceptedRecords(listing, records[1..], paths + {ParseRecord(listing, records[0], paths).value.path});
      }
    }
  }

  /** Whatever bytes were accepted: the paths are pairwise distinct and safe, and printing the entries as either
      listing and parsing that gives them back. */
  lemma AcceptedIsPrintable(listing: Listing, payload: bytes, other: Listing)
    requires Parse(listing, payload).Ok?
    ensures Printable(Parse(listing, payload).value)
    ensures Parse(other, Print(other, Parse(listing, payload).value)) == Parse(listing, payload)
  {
    AcceptedRecords(listing, SplitOn(payload, NUL), {});
    RoundTrip(other, Parse(listing, payload).value);
  }

  // ---------- The strict decoding of mode and object name ----------

  predicate NonAscii(b: bytes) { exists i :: 0 <= i < |b| && b[i] >= 128 }

  /** The record passes every check before the decoding of its mode and object name, and one of them is not ASCII. */
  predicate Undecodable(listing: Listing, record: bytes, paths: set<string>) {
    var p := PartitionOn(record, TAB);
    var fields := Fields(p.head);
    && p.found && |fields| == 3
    && (listing == Index ==> fields[2] == StageZero()) && (listing == Tree ==> fields[1] == BlobWord())
    && DecodeGitPath(p.tail).Ok? && DecodeGitPath(p.tail).value !in paths
    && (NonAscii(fields[0]) || NonAscii(if listing == Index then fields[1] else fields[2]))
  }

  function PathsOf(entries: seq<GitBlobEntry>): set<string> { set e | e in entries :: e.path }

  /** All records before this one are accepted, and this one cannot be decoded. */
  ghost predicate StopsAt(listing: Listing, records: seq<bytes>, paths: set<string>, i: nat) {
    && i < |records| && records[i] != [] && ParseRecords(listing, records[..i], paths).Ok?
    && Undecodable(listing, records[i], paths + PathsOf(ParseRecords(listing, records[..i], paths).value))
  }

  lemma RecordStops(listing: Listing, record: bytes, paths: set<string>)
    ensures ParseRecord(listing, record, paths) == Err(NotAscii) <==> Undecodable(listing, record, paths)
  {
    hide Fields, PartitionOn, SafeMemberPath, Utf8.Decode, IsObjectId;
  }

  lemma StopsFirst(listing: Listing, records: seq<bytes>, paths: set<string>)
    requires records != []
    ensures StopsAt(listing, records, paths, 0) <==> records[0] != [] && Undecodable(listing, records[0], paths)
  {
    hide Undecodable;
    assert records[..0] == [];
    assert paths + PathsOf([]) == paths;
  }

  lemma StopsLater(listing: Listing, records: seq<bytes>, paths: set<string>, i: nat)
    requires 0 < i < |records|
    ensures StopsAt(listing, records, paths, i) <==>
            if records[0] == [] then StopsAt(listing, records[1..], paths, i - 1)
            else
              var first := ParseRecord(listing, records[0], paths);
              first.Ok? && StopsAt(listing, records[1..], paths + {first.value.path}, i - 1)
  {
    hide Undecodable, ParseRecord;
    assert records[..i][0] == records[0] && records[..i][1..] == records[1..][..i - 1];
    var first := ParseRecord(listing, records[0], paths);
    if records[0] != [] && first.Ok? {
      var rest := ParseRecords(listing, records[1..][..i - 1], paths + {first.value.path});
      if rest.Ok? {
        assert paths + PathsOf([first.value] + rest.value) == paths + {first.value.path} + PathsOf(rest.value);
      }
    }
  }

  lemma {:induction false} RecordsStop(listing: Listing, records: seq<bytes>, paths: set<string>)
    ensures ParseRecords(listing, records, paths) == Err(NotAscii) <==> exists i: nat :: StopsAt(listing, records, paths, i)
  {
    hide Undecodable, ParseRecord, StopsAt;
    if records == [] {
      forall i: nat ensures !StopsAt(listing, [], paths, i) { NoRecords(listing, paths, i); }
    } else {
      var first := ParseRecord(listing, records[0], paths);
      var after := if records[0] != [] && first.Ok? then paths + {first.value.path} else paths;
      RecordStops(listing, records[0], paths);
      StopsFirst(listing, records, paths);
      RecordsStop(listing, records[1..], after);
      if i: nat :| StopsAt(listing, records, paths, i) {
        InRange(listing, records, paths, i);
        if i > 0 { StopsLater(listing, records, paths, i); }
      }
      if i: nat :| (records[0] == [] || first.Ok?) && StopsAt(listing, records[1..], after, i) {
        InRange(listing, records[1..], after, i);
        StopsLater(listing, records, paths, i + 1);
      }
    }
  }

  lemma NoRecords(listing: Listing, paths: set<string>, i: nat)
    ensures !StopsAt(listing, [], paths, i)
  {
  }

  lemma InRange(listing: Listing, records: seq<bytes>, paths: set<string>, i: nat)
    requires StopsAt(listing, records, paths, i)
    ensures i < |records|
  {
  }

  /** Python's uncaught UnicodeDecodeError: exactly at the first record that is not accepted, when it fails only there. */
  lemma DecodingFailsIff(listing: Listing, payload: bytes)
    ensures Parse(listing, payload) == Err(NotAscii) <==> exists i: nat :: StopsAt(listing, SplitOn(payload, NUL), {}, i)
  {
    hide StopsAt, ParseRecord;
    var records := SplitOn(payload, NUL);
    RecordsStop(listing, records, {});
    assert Parse(listing, payload) == ParseRecords(listing, records, {});
    if i: nat :| StopsAt(listing, SplitOn(payload, NUL), {}, i) { assert StopsAt(listing, records, {}, i); }
    if i: nat :| StopsAt(listing, records, {}, i) { assert StopsAt(listing, SplitOn(payload, NUL), {}, i); }
  }

  /** An index record with any mode that is not ASCII is one. */
  lemma NonAsciiMode(mode: bytes, id: string, path: string)
    requires IsWord(mode) && NonAscii(mode) && NUL !in mode && TAB !in mode
    requires IsObjectId(id) && SafeMemberPath(path).Some? && '\0' !in path
    ensures IsAscii(id)
    ensures Parse(Index, mode + [SPACE] + Ascii(id) + [SPACE] + StageZero() + [TAB] + Utf8.Encode(path) + [NUL]) == Err(NotAscii)
  {
    hide SafeMemberPath, Utf8.Decode, Utf8.Encode, Fields, PartitionOn, SplitOn, ParseRecord, IsObjectId;
    ObjectIdsArePrintable(id);
    WordBytes(id);
    var header := mode + [SPACE] + Ascii(id) + [SPACE] + StageZero();
    var record := header + [TAB] + Utf8.Encode(path);
    assert IsWord(StageZero());
    ThreeFields(mode, Ascii(id), StageZero());
    PartitionFirst(header, Utf8.Encode(path), TAB);
    Utf8.DecodeEncode(path);
    EncodeWithoutNul(path);
    assert Undecodable(Index, record, {});
    RecordStops(Index, record, {});
    SplitOnFirst(record, [], NUL);
    assert record + [NUL] + [] == record + [NUL];
  }

  // ---------- Records in full ----------

  predicate LowerHex(s: string) { forall i :: 0 <= i < |s| ==> '0' <= s[i] <= '9' || 'a' <= s[i] <= 'f' }

  /** Object names have 40 or 64 digits, and nothing else. */
  lemma ObjectIdIff(s: string)
    ensures IsObjectId(s) <==> (|s| == 40 || |s| == 64) && LowerHex(s)
  {
  }

  /** `100644 <name> 0<TAB><path><NUL>` of an index and `100644 blob <name><TAB><path><NUL>` of a tree, byte by byte. */
  lemma RecordsInFull(id: string, path: string)
    requires (|id| == 40 || |id| == 64) && LowerHex(id) && SafeMemberPath(path).Some? && '\0' !in path
    ensures IsAscii(id)
    ensures Parse(Index, [49, 48, 48, 54, 52, 52, 32] + Ascii(id) + [32, 48, 9] + Utf8.Encode(path) + [0])
         == Ok([GitBlobEntry("100644", id, path)])
    ensures Parse(Tree, [49, 48, 48, 54, 52, 52, 32, 98, 108, 111, 98, 32] + Ascii(id) + [9] + Utf8.Encode(path) + [0])
         == Ok([GitBlobEntry("100644", id, path)])
  {
    hide Parse, SafeMemberPath, Utf8.Encode, Ascii, IsAscii, PrintRecord, Print, PrintableWord;
    var e := GitBlobEntry("100644", id, path);
    ObjectIdsArePrintable(id);
    WordBytes(id);
    ModeWord();
    RoundTrip(Index, [e]);
    RoundTrip(Tree, [e]);
    OneRecord(Index, e);
    OneRecord(Tree, e);
    IndexRecord(e);
    TreeRecord(e);
  }

  lemma IndexRecord(e: GitBlobEntry)
    requires PrintableEntry(e) && Ascii(e.mode) == [49, 48, 48, 54, 52, 52]
    ensures IsAscii(e.objectId)
    ensures PrintRecord(Index, e) + [NUL] == [49, 48, 48, 54, 52, 52, 32] + Ascii(e.objectId) + [32, 48, 9] + Utf8.Encode(e.path) + [0]
  {
    hide SafeMemberPath, Utf8.Encode, Ascii;
    ObjectIdsArePrintable(e.objectId);
    var id, path := Ascii(e.objectId), Utf8.Encode(e.path);
    assert Ascii(e.mode) + [SPACE] == [49, 48, 48, 54, 52, 52, 32];
    assert [SPACE] + StageZero() + [TAB] == [32, 48, 9];
    assert id + [SPACE] + StageZero() + [TAB] == id + ([SPACE] + StageZero() + [TAB]);
    assert PrintRecord(Index, e) == Ascii(e.mode) + [SPACE] + (id + [SPACE] + StageZero() + [TAB]) + path;
  }

  lemma TreeRecord(e: GitBlobEntry)
    requires PrintableEntry(e) && Ascii(e.mode) == [49, 48, 48, 54, 52, 52]
    ensures IsAscii(e.objectId)
    ensures PrintRecord(Tree, e) + [NUL]
         == [49, 48, 48, 54, 52, 52, 32, 98, 108, 111, 98, 32] + Ascii(e.objectId) + [9] + Utf8.Encode(e.path) + [0]
  {
    hide SafeMemberPath, Utf8.Encode, Ascii;
    ObjectIdsArePrintable(e.objectId);
    assert Ascii(e.mode) + [SPACE] + BlobWord() + [SPACE] == [49, 48, 48, 54, 52, 52, 32, 98, 108, 111, 98, 32];
  }

  lemma ModeWord()
    ensures PrintableWord("100644") && Ascii("100644") == [49, 48, 48, 54, 52, 52]
  {
  }

  lemma OneRecord(listing: Listing, e: GitBlobEntry)
    requires PrintableEntry(e)
    ensures Print(listing, [e]) == PrintRecord(listing, e) + [NUL]
  {
    hide PrintRecord;
    assert [e][1..] == [] && PrintRecord(listing, e) + [NUL] + [] == PrintRecord(listing, e) + [NUL];
  }
}
