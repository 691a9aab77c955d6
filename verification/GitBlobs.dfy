/** `_read_git_blobs`: a client of `git cat-file --batch`, which answers each object name with a header line, the
    object's bytes and a line feed. */
module GitBlobs {
  import opened Bytes
  import opened Wrappers
  import opened ByteText
  import opened GitRecords
  import opened SdistLimits

  datatype ObjectType = Blob | TreeObject | CommitObject | Tag

  datatype GitObject = GitObject(kind: ObjectType, data: bytes)

  type Store = map<string, GitObject>

  datatype BlobError = MalformedResponse | WrongObject | BadSize | BlobTooLarge | BlobsTooLarge | TruncatedBlob | ReaderFailed

  function KindName(kind: ObjectType): (b: bytes)
    ensures IsWord(b) && LF !in b && (b == BlobWord() <==> kind == Blob)
  {
    match kind
    case Blob => BlobWord()
    case TreeObject => [116, 114, 101, 101]
    case CommitObject => [99, 111, 109, 109, 105, 116]
    case Tag => [116, 97, 103]
  }

  /** ` missing` */
  function MissingWord(): bytes { [109, 105, 115, 115, 105, 110, 103] }

  predicate PlainWord(w: bytes) { IsWord(w) && LF !in w }

  function HeaderLine(id: bytes, stored: GitObject): bytes {
    id + [SPACE] + KindName(stored.kind) + [SPACE] + Decimal(|stored.data|)
  }

  /** What the server answers to one object name. */
  function Response(store: Store, id: string): bytes
    requires IsAscii(id)
  {
    if id in store then HeaderLine(Ascii(id), store[id]) + [LF] + store[id].data + [LF]
    else Ascii(id) + [SPACE] + MissingWord() + [LF]
  }

  /** The process: an object store and the output that has not been read yet. */
  class CatFile {
    const store: Store
    const exitCode: int
    var pending: bytes

    constructor (store: Store, exitCode: int)
      ensures this.store == store && this.exitCode == exitCode && pending == []
    {
      this.store := store;
      this.exitCode := exitCode;
      pending := [];
    }

    /** `stdin.write(f"{id}\n")` and a flush. */
    method Request(id: string)
      requires IsAscii(id)
      modifies this
      ensures pending == old(pending) + Response(store, id)
    {
      pending := pending + Response(store, id);
    }

    /** `stdout.readline()`: up to and including the first line feed. */
    method ReadLine() returns (line: bytes)
      modifies this
      ensures old(pending) == line + pending
      ensures line == (var n := Before(old(pending), LF); if n < |old(pending)| then old(pending)[..n + 1] else old(pending))
    {
      var n := Before(pending, LF);
      var end := if n < |pending| then n + 1 else n;
      line := pending[..end];
      pending := pending[end..];
    }

    /** `stdout.read(size)`. */
    method Read(size: nat) returns (data: bytes)
      modifies this
      ensures old(pending) == data + pending
      ensures |data| == (if size <= |old(pending)| then size else |old(pending)|)
    {
      var n := if size <= |pending| then size else |pending|;
      data := pending[..n];
      pending := pending[n..];
    }
  }

  /** `line.rstrip(b"\n")`. */
  function StripLineFeeds(line: bytes): bytes {
    if line != [] && line[|line| - 1] == LF then StripLineFeeds(line[..|line| - 1]) else line
  }

  // ---------- What the client should return ----------

  predicate Fetchable(store: Store, e: GitBlobEntry) {
    e.objectId in store && store[e.objectId].kind == Blob && |store[e.objectId].data| <= MAX_SDIST_MEMBER_BYTES
  }

  function TotalBytes(store: Store, entries: seq<GitBlobEntry>): nat {
    if entries == [] then 0
    else
      var e := entries[|entries| - 1];
      TotalBytes(store, entries[..|entries| - 1]) + (if e.objectId in store then |store[e.objectId].data| else 0)
  }

  ghost predicate WithinLimits(store: Store, entries: seq<GitBlobEntry>) {
    && (forall i :: 0 <= i < |entries| ==> Fetchable(store, entries[i]))
    && TotalBytes(store, entries) <= MAX_SDIST_UNCOMPRESSED_BYTES
  }

  ghost predicate DistinctPaths(entries: seq<GitBlobEntry>) {
    forall i, j :: 0 <= i < j < |entries| ==> entries[i].path != entries[j].path
  }

  /** Every path is mapped to the bytes stored for the last entry that names it, and no other path is mapped. */
  ghost predicate Maps(store: Store, entries: seq<GitBlobEntry>, payloads: map<string, bytes>) {
    && (forall p :: p in payloads <==> exists i :: 0 <= i < |entries| && entries[i].path == p)
    && (forall i :: 0 <= i < |entries| && LastWith(entries, i) ==>
          entries[i].objectId in store && entries[i].path in payloads &&
          payloads[entries[i].path] == store[entries[i].objectId].data)
  }

  ghost predicate LastWith(entries: seq<GitBlobEntry>, i: nat)
    requires i < |entries|
  {
    forall j :: i < j < |entries| ==> entries[j].path != entries[i].path
  }

  lemma {:induction false} TotalGrows(store: Store, entries: seq<GitBlobEntry>, i: nat)
    requires i <= |entries|
    ensures TotalBytes(store, entries[..i]) <= TotalBytes(store, entries)
    decreases |entries|
  {
    var n := |entries| - 1;
    if i <= n {
      TotalGrows(store, entries[..n], i);
      assert entries[..n][..i] == entries[..i];
    } else {
      assert entries[..i] == entries;
    }
  }

  // ---------- Reading one response ----------

  lemma {:induction false} StripOne(line: bytes)
    requires LF !in line
    ensures StripLineFeeds(line + [LF]) == line
  {
    var whole := line + [LF];
    assert whole[..|whole| - 1] == line;
    assert line != [] ==> line[|line| - 1] in line;
  }

  lemma LineOf(line: bytes, rest: bytes)
    requires LF !in line
    ensures Before(line + [LF] + rest, LF) == |line|
    ensures (line + [LF] + rest)[..|line| + 1] == line + [LF] && (line + [LF] + rest)[|line| + 1..] == rest
  {
    BeforeFirst(line, rest, LF);
  }

  lemma ObjectIdBytes(id: string)
    requires IsObjectId(id)
    ensures IsAscii(id) && PlainWord(Ascii(id)) && DecodeAscii(Ascii(id)) == Some(id)
  {
    ObjectIdsArePrintable(id);
    WordBytes(id);
  }

  /** The header of a stored object: one line of three fields, whatever its bytes are. */
  lemma HeaderOfObject(id: bytes, stored: GitObject)
    requires PlainWord(id)
    ensures LF !in HeaderLine(id, stored)
    ensures Fields(HeaderLine(id, stored)) == [id, KindName(stored.kind), Decimal(|stored.data|)]
    ensures ParseInt(Decimal(|stored.data|)) == Some(|stored.data|)
  {
    ParseDecimal(|stored.data|);
    ThreeFields(id, KindName(stored.kind), Decimal(|stored.data|));
  }

  lemma HeaderOfMissing(id: bytes)
    requires PlainWord(id)
    ensures LF !in id + [SPACE] + MissingWord()
    ensures |Fields(id + [SPACE] + MissingWord())| == 2
  {
    var line := id + [SPACE] + MissingWord();
    assert line == id + ([SPACE] + MissingWord());
    FieldsWord([], id, [SPACE] + MissingWord());
    assert ([SPACE] + MissingWord())[1..] == MissingWord() && MissingWord() + [] == MissingWord();
    FieldsWord([], MissingWord(), []);
  }

  /** One exchange. The client stays in frame: on success nothing of the response is left unread, even when
      the object's bytes contain line feeds or look like headers. */
  method Fetch(process: CatFile, entry: GitBlobEntry, totalBefore: nat) returns (r: Result<bytes, BlobError>)
    requires process.pending == [] && IsObjectId(entry.objectId)
    modifies process
    ensures r.Ok? <==> Fetchable(process.store, entry) &&
                       totalBefore + |process.store[entry.objectId].data| <= MAX_SDIST_UNCOMPRESSED_BYTES
    ensures r.Ok? ==> r.value == process.store[entry.objectId].data && process.pending == []
    ensures r != Err(TruncatedBlob) && r != Err(BadSize) && r != Err(ReaderFailed)
  {
    hide Response, Fields, StripLineFeeds, Decimal, ParseInt, Ascii, DecodeAscii, KindName, Before, IsObjectId;
    ghost var store := process.store;
    ObjectIdBytes(entry.objectId);
    process.Request(entry.objectId);
    assert [] + Response(store, entry.objectId) == Response(store, entry.objectId);
    ghost var line, rest := FirstLine(store, entry.objectId);
    var header := process.ReadLine();
    assert header == line + [LF] && process.pending == rest by { LineOf(line, rest); }
    StripOne(line);
    var fields := Fields(StripLineFeeds(header));
    if |fields| != 3 {
      return Err(MalformedResponse);
    }
    if DecodeAscii(fields[0]) != Some(entry.objectId) || fields[1] != BlobWord() {
      return Err(WrongObject);
    }
    var size := ParseInt(fields[2]);
    if size.None? {
      return Err(BadSize);
    }
    if size.value < 0 || size.value > MAX_SDIST_MEMBER_BYTES {
      return Err(BlobTooLarge);
    }
    if totalBefore + size.value > MAX_SDIST_UNCOMPRESSED_BYTES {
      return Err(BlobsTooLarge);
    }
    ghost var data := store[entry.objectId].data;
    assert rest == data + [LF];
    var blob := process.Read(size.value);
    assert blob == data && process.pending == [LF] by {
      assert blob == (data + [LF])[..|data|] && process.pending == (data + [LF])[|data|..];
    }
    var terminator := process.Read(1);
    assert terminator == [LF] && process.pending == [];
    if |blob| != size.value || terminator != [LF] {
      return Err(TruncatedBlob);
    }
    r := Ok(blob);
  }

  /** The header line of a response, and what follows it. */
  lemma FirstLine(store: Store, id: string) returns (line: bytes, rest: bytes)
    requires IsObjectId(id) && IsAscii(id)
    ensures LF !in line && Response(store, id) == line + [LF] + rest
    ensures id in store ==> rest == store[id].data + [LF]
    ensures id in store ==> Fields(line) == [Ascii(id), KindName(store[id].kind), Decimal(|store[id].data|)]
    ensures id in store ==> ParseInt(Decimal(|store[id].data|)) == Some(|store[id].data|)
    ensures id !in store ==> |Fields(line)| == 2
  {
    ObjectIdBytes(id);
    if id in store {
      HeaderOfObject(Ascii(id), store[id]);
      line, rest := HeaderLine(Ascii(id), store[id]), store[id].data + [LF];
      assert line + [LF] + store[id].data + [LF] == line + [LF] + rest;
    } else {
      HeaderOfMissing(Ascii(id));
      line, rest := Ascii(id) + [SPACE] + MissingWord(), [];
      assert line + [LF] + rest == line + [LF];
    }
  }

  /** All blobs are read exactly when every object is a blob within the member limit, their total is within
      the archive limit, and the process ends well; then every path has its stored bytes. */
  method ReadGitBlobs(process: CatFile, entries: seq<GitBlobEntry>) returns (r: Result<map<string, bytes>, BlobError>)
    requires process.pending == [] && forall i :: 0 <= i < |entries| ==> IsObjectId(entries[i].objectId)
    modifies process
    ensures r.Ok? <==> WithinLimits(process.store, entries) && process.exitCode == 0
    ensures r.Ok? ==> Maps(process.store, entries, r.value) && process.pending == []
    ensures r != Err(TruncatedBlob) && r != Err(BadSize)
  {
    var payloads: map<string, bytes> := map[];
    var totalBytes := 0;
    for i := 0 to |entries|
      invariant process.pending == []
      invariant WithinLimits(process.store, entries[..i]) && totalBytes == TotalBytes(process.store, entries[..i])
      invariant Maps(process.store, entries[..i], payloads)
    {
      var entry := entries[i];
      assert entries[..i + 1][..i] == entries[..i] && entries[..i + 1][i] == entry;
      var blob := Fetch(process, entry, totalBytes);
      if blob.Err? {
        TotalGrows(process.store, entries, i + 1);
        return Err(blob.error);
      }
      MapsMore(process.store, entries, i, payloads);
      WithinMore(process.store, entries, i);
      totalBytes := totalBytes + |blob.value|;
      payloads := payloads[entry.path := blob.value];
    }
    assert entries[..|entries|] == entries;
    if process.exitCode != 0 {
      return Err(ReaderFailed);
    }
    r := Ok(payloads);
  }

  lemma WithinMore(store: Store, entries: seq<GitBlobEntry>, i: nat)
    requires i < |entries| && WithinLimits(store, entries[..i]) && Fetchable(store, entries[i])
    requires TotalBytes(store, entries[..i]) + |store[entries[i].objectId].data| <= MAX_SDIST_UNCOMPRESSED_BYTES
    ensures WithinLimits(store, entries[..i + 1])
  {
    var before, now := entries[..i], entries[..i + 1];
    assert now[..i] == before;
    forall k | 0 <= k < |now| ensures Fetchable(store, now[k]) {
      if k < i { assert Fetchable(store, before[k]); }
    }
  }

  lemma MapsMore(store: Store, entries: seq<GitBlobEntry>, i: nat, payloads: map<string, bytes>)
    requires i < |entries| && Maps(store, entries[..i], payloads) && entries[i].objectId in store
    ensures Maps(store, entries[..i + 1], payloads[entries[i].path := store[entries[i].objectId].data])
  {
    var before, now, e := entries[..i], entries[..i + 1], entries[i];
    var payloads' := payloads[e.path := store[e.objectId].data];
    assert forall k :: 0 <= k < i ==> now[k] == before[k];
    forall p ensures p in payloads' <==> exists k :: 0 <= k < |now| && now[k].path == p {
      if p in payloads {
        var k :| 0 <= k < |before| && before[k].path == p;
        assert now[k].path == p;
      }
      assert now[i].path == e.path;
      if k :| 0 <= k < |now| && now[k].path == p {
        if k < i { assert before[k].path == p; }
      }
    }
    forall k | 0 <= k < |now| && LastWith(now, k)
      ensures now[k].objectId in store && now[k].path in payloads' && payloads'[now[k].path] == store[now[k].objectId].data
    {
      if k < i {
        assert now[i].path != now[k].path;
        forall j | k < j < |before| ensures before[j].path != before[k].path { assert now[j].path != now[k].path; }
        assert LastWith(before, k);
      }
    }
  }

  /** With distinct paths: each path has exactly the bytes of its object, and nothing else is returned. */
  lemma DistinctPathsExact(store: Store, entries: seq<GitBlobEntry>, payloads: map<string, bytes>)
    requires Maps(store, entries, payloads) && DistinctPaths(entries)
    ensures forall i :: 0 <= i < |entries| ==>
              (entries[i].objectId in store && entries[i].path in payloads &&
               payloads[entries[i].path] == store[entries[i].objectId].data)
    ensures |payloads| == |entries|
  {
    forall i | 0 <= i < |entries| ensures LastWith(entries, i) {}
    CountPaths(entries, payloads.Keys);
  }

  lemma {:induction false} CountPaths(entries: seq<GitBlobEntry>, keys: set<string>)
    requires DistinctPaths(entries)
    requires forall p :: p in keys <==> exists i :: 0 <= i < |entries| && entries[i].path == p
    ensures |keys| == |entries|
  {
    if entries == [] {
      assert keys == {};
    } else {
      var n := |entries| - 1;
      var before, last := entries[..n], entries[n].path;
      forall p ensures p in keys - {last} <==> exists i :: 0 <= i < |before| && before[i].path == p {
        if p in keys - {last} {
          var i :| 0 <= i < |entries| && entries[i].path == p;
          assert before[i].path == p;
        }
        if i :| 0 <= i < |before| && before[i].path == p {
          assert entries[i].path == p;
        }
      }
      CountPaths(before, keys - {last});
      assert entries[n].path == last;
    }
  }

  // ---------- Responses and limits in full ----------

  /** `<name> blob <size><LF><bytes><LF>`, or `<name> missing<LF>`. */
  lemma ResponseInFull(store: Store, id: string)
    requires IsAscii(id)
    ensures id in store && store[id].kind == Blob ==>
              Response(store, id) == Ascii(id) + [32, 98, 108, 111, 98, 32] + Decimal(|store[id].data|) + [10] + store[id].data + [10]
    ensures id !in store ==> Response(store, id) == Ascii(id) + [32, 109, 105, 115, 115, 105, 110, 103, 10]
  {
    hide Ascii, Decimal;
    assert [SPACE] + BlobWord() + [SPACE] == [32, 98, 108, 111, 98, 32];
    assert [SPACE] + MissingWord() + [LF] == [32, 109, 105, 115, 115, 105, 110, 103, 10];
    if id in store && store[id].kind == Blob {
      assert HeaderLine(Ascii(id), store[id]) == Ascii(id) + ([SPACE] + BlobWord() + [SPACE]) + Decimal(|store[id].data|);
    }
    assert Ascii(id) + [SPACE] + MissingWord() + [LF] == Ascii(id) + ([SPACE] + MissingWord() + [LF]);
  }

  /** Each blob has at most 5 MiB, and all together at most 25 MiB. */
  lemma LimitsInNumbers(store: Store, entries: seq<GitBlobEntry>)
    ensures WithinLimits(store, entries) <==>
            && (forall i :: 0 <= i < |entries| ==>
                  entries[i].objectId in store && store[entries[i].objectId].kind.Blob? &&
                  |store[entries[i].objectId].data| <= 5_242_880)
            && TotalBytes(store, entries) <= 26_214_400
  {
    assert WithinLimits(store, entries) ==> forall i :: 0 <= i < |entries| ==> Fetchable(store, entries[i]);
  }

  /** One more entry adds the size of its blob. */
  lemma TotalOfMore(store: Store, entries: seq<GitBlobEntry>, e: GitBlobEntry)
    requires e.objectId in store
    ensures TotalBytes(store, []) == 0
    ensures TotalBytes(store, entries + [e]) == TotalBytes(store, entries) + |store[e.objectId].data|
  {
    assert (entries + [e])[..|entries|] == entries;
  }
}
