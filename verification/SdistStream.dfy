/** `_inspect_sdist_contents` with the stream it reads: the archive's members come out of a decompressed stream that is
    read through `_ByteLimitReader` and drained to its end. */
module SdistStream {
  import opened Bytes
  import opened Wrappers
  import opened SdistLimits
  import opened BoundedReader
  import opened ArchiveInspection

  datatype StreamError = Stream(error: ReadError) | Archive(reason: SdistError)

  ghost predicate ContentsOk(archiveSize: int, ms: seq<Member>, root: string) {
    archiveSize <= MAX_SDIST_BYTES && Acceptable(Items(ms, root)) && RequiredPresent(FileNames(Items(ms, root)))
  }

  /** The tar reader makes any reads, `sizes`; `untar` says which members it finds in the stream. An archive is accepted
      only if the whole stream is within its limit, and exactly then if its members are acceptable and the stream is
      not damaged. */
  method InspectSdist(archiveSize: int, stream: Source, sizes: seq<int>, untar: bytes -> seq<Member>, root: string, sha256: bytes -> string)
    returns (r: Result<Report, StreamError>)
    requires stream.Valid() && stream.position == 0
    modifies stream
    ensures r.Ok? ==> |stream.data| <= 33_554_432 && ContentsOk(archiveSize, untar(stream.data), root)
    ensures r.Ok? ==> ReportSays(r.value, archiveSize, Items(untar(stream.data), root), sha256)
    ensures !stream.damaged ==>
              (r.Ok? <==> |stream.data| <= 33_554_432 && ContentsOk(archiveSize, untar(stream.data), root))
    ensures r == Err(Stream(LimitExceeded)) ==> |stream.data| > 33_554_432
    ensures r == Err(Stream(InvalidStream)) ==> stream.damaged
    ensures stream.position <= 33_554_433
  {
    hide Acceptable, Items, RequiredPresent, FileNames, ReportSays, DotReached;
    if archiveSize > MAX_SDIST_BYTES {
      return Err(Archive(ArchiveTooLarge));
    }
    var bounded := new ByteLimitReader(stream, MAX_SDIST_TAR_STREAM_BYTES);
    for i := 0 to |sizes|
      invariant bounded.Valid() && bounded.bytesRead <= bounded.limit
      invariant fresh(bounded)
    {
      var chunk := bounded.Read(sizes[i]);
      if chunk.Err? {
        return Err(Stream(chunk.error));
      }
    }
    var drained := bounded.Drain(1024 * 1024);
    if drained.Err? {
      match drained.error {
        case InvalidStream => assert drained == Err(InvalidStream);
        case LimitExceeded => assert drained == Err(LimitExceeded);
      }
      return Err(Stream(drained.error));
    }
    var inspected := InspectSdistContents(archiveSize, untar(stream.data), root, sha256);
    if inspected.Err? {
      return Err(Archive(inspected.error));
    }
    r := Ok(inspected.value);
  }
}
