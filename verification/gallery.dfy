/** `GalleryDataProvider` (Java, Android): inserting images and videos into
    the media store and copying a stream into the new entry. The content
    resolver, the clock and the platform version are parameters. */
module Gallery {
  import opened Wrappers
  import opened Bytes
  import CSharp

  const BufferSize: nat := 4 * 1024

  /** The exception a copy can stop at. */
  datatype CopyStop = Completed | IOFailure(atRead: nat)

  /** The size of one read at a position with `remaining` bytes left: what
      `readSize` asks for, at least one byte and at most a buffer and what is
      left. */
  function ReadLength(wanted: nat, remaining: nat): (n: nat)
    requires remaining > 0
    ensures 1 <= n <= BufferSize && n <= remaining
  {
    var r := if wanted < 1 then 1 else if wanted > BufferSize then BufferSize else wanted;
    if r > remaining then remaining else r
  }

  /** The sizes of the reads of an uninterrupted copy of `n` bytes from
      `pos` on: the reference the copy loop is measured against. */
  function Reads(n: nat, readSize: nat -> nat, pos: nat): seq<nat>
    decreases n - pos
  {
    if pos >= n then [] else
      var r := ReadLength(readSize(pos), n - pos);
      [r] + Reads(n, readSize, pos + r)
  }

  /** `writeStreamToOutput`: reads into a 4096-byte buffer until the end
      of the stream and writes each read out. The stream hands back, for
      the read starting at `pos`, between one byte and as many as fit
      (`readSize` chooses within that range, as `InputStream.read` may). An
      I/O exception at read number `k` (counting from 0) ends the copy
      silently, so exactly the first `k` reads of the uninterrupted copy
      have been written, unless the stream ended before. */
  method WriteStreamToOutput(data: seq<Byte>, readSize: nat -> nat, stop: CopyStop)
    returns (output: seq<Byte>, chunks: seq<nat>)
    ensures forall i :: 0 <= i < |chunks| ==> 1 <= chunks[i] <= BufferSize
    ensures |output| <= |data| && output == data[..|output|]
    ensures Sum(chunks) == |output|
    ensures |output| <= |chunks| * BufferSize
    ensures var all := Reads(|data|, readSize, 0);
      && (stop == Completed ==> output == data && chunks == all)
      && (stop.IOFailure? ==> chunks == all[..if stop.atRead < |all| then stop.atRead else |all|])
  {
    chunks := [];
    var pos := 0;
    assert Copied(chunks, |data|, readSize, pos);
    while pos < |data| && !(stop.IOFailure? && |chunks| == stop.atRead)
      invariant 0 <= pos <= |data|
      invariant Sum(chunks) == pos
      invariant Copied(chunks, |data|, readSize, pos)
      invariant stop.IOFailure? ==> |chunks| <= stop.atRead
      decreases |data| - pos
    {
      var read := ReadLength(readSize(pos), |data| - pos);
      SumAppend(chunks, read);
      ReadsStep(chunks, |data|, readSize, pos);
      chunks := chunks + [read];
      pos := pos + read;
    }
    output := data[..pos];
    CopyEnd(chunks, |data|, readSize, pos, stop);
    ChunksCoverData(chunks);
  }

  /** Where the copy loop stops, the reads done are those of the
      uninterrupted copy, all of them or the first `atRead`. */
  lemma CopyEnd(chunks: seq<nat>, n: nat, readSize: nat -> nat, pos: nat, stop: CopyStop)
    requires Copied(chunks, n, readSize, pos)
    requires pos >= n || (stop.IOFailure? && |chunks| == stop.atRead)
    requires stop.IOFailure? ==> |chunks| <= stop.atRead
    ensures forall i :: 0 <= i < |chunks| ==> 1 <= chunks[i] <= BufferSize
    ensures var all := Reads(n, readSize, 0);
      && (stop == Completed ==> chunks == all)
      && (stop.IOFailure? ==> chunks == all[..if stop.atRead < |all| then stop.atRead else |all|])
  {
    PrefixOfConcat(chunks, Reads(n, readSize, pos));
    ReadsBounded(n, readSize, 0);
  }

  /** Every read of an uninterrupted copy fills between one byte and the
      buffer. */
  lemma {:induction false} ReadsBounded(n: nat, readSize: nat -> nat, pos: nat)
    ensures forall i :: 0 <= i < |Reads(n, readSize, pos)| ==> 1 <= Reads(n, readSize, pos)[i] <= BufferSize
    decreases n - pos
  {
    if pos < n {
      var r := ReadLength(readSize(pos), n - pos);
      ReadsBounded(n, readSize, pos + r);
    }
  }

  /** A sequence is the prefix of its concatenation with anything. */
  lemma PrefixOfConcat(c: seq<nat>, rest: seq<nat>)
    ensures (c + rest)[..|c|] == c
  {
  }

  /** One more read moves its size from the reads still to come to those
      done. */
  lemma ReadsStep(done: seq<nat>, n: nat, readSize: nat -> nat, pos: nat)
    requires pos < n && Copied(done, n, readSize, pos)
    ensures var r := ReadLength(readSize(pos), n - pos); Copied(done + [r], n, readSize, pos + r)
  {
    var r := ReadLength(readSize(pos), n - pos);
    assert Reads(n, readSize, pos) == [r] + Reads(n, readSize, pos + r);
    assert (done + [r]) + Reads(n, readSize, pos + r) == done + Reads(n, readSize, pos);
  }

  /** The reads `done` so far, followed by those an uninterrupted copy
      would still make from `pos`, are the reads of the whole copy. */
  predicate Copied(done: seq<nat>, n: nat, readSize: nat -> nat, pos: nat) {
    done + Reads(n, readSize, pos) == Reads(n, readSize, 0)
  }

  /** The total of the chunk sizes. */
  function Sum(s: seq<nat>): (r: nat)
    ensures |s| > 0 ==> r >= s[0]
  {
    if |s| == 0 then 0 else s[0] + Sum(s[1..])
  }

  /** Appending a chunk adds its size. */
  lemma {:induction false} SumAppend(s: seq<nat>, x: nat)
    ensures Sum(s + [x]) == Sum(s) + x
  {
    if |s| > 0 {
      assert (s + [x])[1..] == s[1..] + [x];
      SumAppend(s[1..], x);
    }
  }

  /** Reads no larger than the buffer add up to at most a buffer per read,
      so a copy of `m` bytes takes at least `m / 4096` reads. */
  lemma {:induction false} ChunksCoverData(chunks: seq<nat>)
    requires forall i :: 0 <= i < |chunks| ==> chunks[i] <= BufferSize
    ensures Sum(chunks) <= |chunks| * BufferSize
  {
    if |chunks| > 0 {
      ChunksCoverData(chunks[1..]);
    }
  }

  /** The Android version codes the provider tests against. */
  const VersionQ: int := 29

  /** The columns of a media-store insert. */
  datatype Values = Values(displayName: string, mimeType: string, dateAdded: Option<int>, dateModified: Option<int>,
                           dateTaken: Option<int>, relativePath: Option<string>)

  const DirectoryPictures: string := "Pictures"
  const DirectoryMovies: string := "Movies"
  const Separator: string := "/"

  /** The columns of an image insert: name, type, the add and modify time
      in seconds (`currentTimeMillis() / 1000`, truncated), and from
      Android Q on also the time taken and the relative path under the
      pictures folder. */
  function ImageValues(displayName: string, mimeType: string, folderName: string, nowMillis: int, sdk: int): (r: Values)
    ensures r.displayName == displayName && r.mimeType == mimeType
    ensures r.dateAdded.Some? && r.dateAdded == r.dateModified
    ensures nowMillis >= 0 ==> r.dateAdded.value * 1000 <= nowMillis < (r.dateAdded.value + 1) * 1000
    ensures sdk >= VersionQ <==> r.relativePath.Some?
    ensures sdk >= VersionQ <==> r.dateTaken.Some?
    ensures sdk >= VersionQ ==> r.relativePath.value == DirectoryPictures + Separator + folderName && r.dateTaken == r.dateAdded
  {
    var now := CSharp.Div(nowMillis, 1000);
    if sdk >= VersionQ then Values(displayName, mimeType, Some(now), Some(now), Some(now), Some(DirectoryPictures + Separator + folderName))
    else Values(displayName, mimeType, Some(now), Some(now), None, None)
  }

  /** The columns of a video insert: name, type and the relative path under
      the movies folder, on every version. */
  function VideoValues(displayName: string, mimeType: string, folderName: string): (r: Values)
    ensures r.displayName == displayName && r.mimeType == mimeType
    ensures r.relativePath == Some(DirectoryMovies + Separator + folderName)
    ensures r.dateAdded.None? && r.dateTaken.None?
  {
    Values(displayName, mimeType, None, None, None, Some(DirectoryMovies + Separator + folderName))
  }

  /** A media-store entry. */
  type Uri = nat

  /** Exceptions that escape an insert. */
  datatype InsertError = NullPointer

  /** What an insert does: the columns it inserts, what it returns, and
      whether it copies content into the new entry. */
  datatype Insert = Insert(values: Values, result: Result<Option<Uri>, InsertError>, copies: bool)

  /** `insertImage(InputStream, …)` and `insertVideo(InputStream, …)`:
      when the store gives no entry, nothing is copied and the result is
      null; otherwise the stream is copied into the entry, which is
      returned. */
  function InsertFromStream(values: Values, inserted: Option<Uri>): (r: Insert)
    ensures r.values == values
    ensures inserted.None? ==> r.result == Success(None) && !r.copies
    ensures inserted.Some? ==> r.result == Success(inserted) && r.copies
  {
    Insert(values, Success(inserted), inserted.Some?)
  }

  /** `insertImage(Bitmap, …)`: the new entry is not tested, so a missing
      one makes opening its output stream throw past the I/O handler. */
  function InsertUnchecked(values: Values, inserted: Option<Uri>): (r: Insert)
    ensures r.values == values
    ensures inserted.None? <==> r.result.Failure?
    ensures inserted.Some? ==> r.result == Success(inserted) && r.copies
  {
    match inserted
    case None => Insert(values, Failure(NullPointer), false)
    case Some(u) => Insert(values, Success(inserted), true)
  }

  /** `insertImage(String imagePath, …)`: the entry is inserted first, with
      the image columns built from the clock, the platform version and the
      MIME type the decoder probed from the file (`decodedMime`); a missing
      file then ends the copy through the I/O handler before the entry is
      opened, and the entry (possibly null) is returned. */
  function InsertImageFromPath(displayName: string, folderName: string, decodedMime: string, nowMillis: int, sdk: int,
                               fileExists: bool, inserted: Option<Uri>): (r: Insert)
    ensures r.values == ImageValues(displayName, decodedMime, folderName, nowMillis, sdk)
    ensures !fileExists ==> r.result == Success(inserted) && !r.copies
    ensures fileExists ==> (r.result.Failure? <==> inserted.None?)
    ensures fileExists && inserted.Some? ==> r.result == Success(inserted) && r.copies
  {
    var values := ImageValues(displayName, decodedMime, folderName, nowMillis, sdk);
    if !fileExists then Insert(values, Success(inserted), false)
    else InsertUnchecked(values, inserted)
  }

  /** The media type `insertVideo(String path, …)` passes on. */
  const VideoMp4: string := "video/mp4"

  /** `insertVideo(String originFilePath, …)`: a missing file gives null
      without touching the store; otherwise a stream video insert typed
      `video/mp4`. */
  function InsertVideoFromPath(fileExists: bool, displayName: string, folderName: string, inserted: Option<Uri>): (r: Option<Insert>)
    ensures !fileExists <==> r.None?
    ensures r.Some? ==> r.value.values == VideoValues(displayName, VideoMp4, folderName)
    ensures r.Some? ==> r.value.result == Success(inserted) && (r.value.copies <==> inserted.Some?)
  {
    if !fileExists then None
    else Some(InsertFromStream(VideoValues(displayName, VideoMp4, folderName), inserted))
  }

  /** Whatever the inputs, the path inserts carry the caller's name: the
      image under Pictures from Android Q on with the probed type, the video
      under Movies on every version as `video/mp4`. */
  lemma PathInsertColumns(displayName: string, folderName: string, decodedMime: string, nowMillis: int, sdk: int,
                          fileExists: bool, inserted: Option<Uri>)
    ensures var v := InsertImageFromPath(displayName, folderName, decodedMime, nowMillis, sdk, fileExists, inserted).values;
      && v.displayName == displayName && v.mimeType == decodedMime
      && (sdk >= VersionQ <==> v.relativePath == Some(DirectoryPictures + Separator + folderName))
    ensures var r := InsertVideoFromPath(fileExists, displayName, folderName, inserted);
      r.Some? ==>
        (&& r.value.values.displayName == displayName && r.value.values.mimeType == VideoMp4
         && r.value.values.relativePath == Some(DirectoryMovies + Separator + folderName))
  {
  }

  /** The video path is set on every version; the image path only from
      Android Q. */
  lemma RelativePathRules(displayName: string, mimeType: string, folderName: string, nowMillis: int, sdk: int)
    ensures VideoValues(displayName, mimeType, folderName).relativePath.Some?
    ensures sdk < VersionQ ==> ImageValues(displayName, mimeType, folderName, nowMillis, sdk).relativePath.None?
  {
  }
}
