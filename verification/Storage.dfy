/** Local file storage: an upload is stored whole under its key, or leaves nothing behind. */
module Storage {
  import opened Wrappers

  newtype Byte = b: int | 0 <= b < 256
  type Bytes = seq<Byte>
  type Files = map<string, Bytes>

  const SIGNATURE_BUFFER_SIZE: nat := 4096

  /** What reading an upload yields: non-empty chunks, and then its end or an error of reading or writing. */
  datatype Upload = Upload(chunks: seq<Bytes>, breaks: bool, extension: string)

  /** The check of a file's signature, on the extension, the header and the stored file: the kind, or a refusal. */
  type Signature = (string, Bytes, Bytes) -> Option<string>

  datatype StoredFile = StoredFile(key: string, size: nat, checksum: Bytes, kind: string, extension: string)

  predicate WellFormed(u: Upload) { forall c <- u.chunks :: c != [] }

  function Joined(chunks: seq<Bytes>): Bytes { if chunks == [] then [] else chunks[0] + Joined(chunks[1..]) }

  function Contents(u: Upload): Bytes { Joined(u.chunks) }

  function Header(content: Bytes): Bytes { First(content, SIGNATURE_BUFFER_SIZE) }

  function First(content: Bytes, n: nat): Bytes { content[..if |content| < n then |content| else n] }

  /** An upload is accepted when it is read to its end, is neither empty nor too large, and has a known signature. */
  predicate Accepted(u: Upload, limit: int, signature: Signature) {
    var content := Contents(u);
    !u.breaks && content != [] && |content| <= limit && signature(u.extension, Header(content), content).Some?
  }

  /** The stored file of an accepted upload; the checksum stands for the content it identifies. */
  function Stored(u: Upload, key: string, signature: Signature): (r: StoredFile)
    requires signature(u.extension, Header(Contents(u)), Contents(u)).Some?
    ensures r.size == |r.checksum| && r.key == key
  {
    var content := Contents(u);
    StoredFile(key, |content|, content, signature(u.extension, Header(content), content).value, u.extension)
  }

  lemma {:induction false} JoinedSnoc(chunks: seq<Bytes>, c: Bytes)
    ensures Joined(chunks + [c]) == Joined(chunks) + c
  {
    if chunks == [] {
      assert chunks + [c] == [c];
      assert Joined([c]) == c + Joined([]);
    } else {
      assert (chunks + [c])[1..] == chunks[1..] + [c];
      JoinedSnoc(chunks[1..], c);
    }
  }

  lemma JoinedOnward(chunks: seq<Bytes>, i: nat)
    requires i < |chunks|
    ensures Joined(chunks[..i + 1]) == Joined(chunks[..i]) + chunks[i]
    ensures i + 1 == |chunks| ==> Joined(chunks[..i + 1]) == Joined(chunks)
    ensures |Joined(chunks[..i])| + |chunks[i]| <= |Joined(chunks)|
  {
    assert chunks[..i + 1] == chunks[..i] + [chunks[i]];
    JoinedSnoc(chunks[..i], chunks[i]);
    JoinedPrefix(chunks, i + 1);
    if i + 1 == |chunks| { assert chunks[..i + 1] == chunks; }
  }

  lemma {:induction false} JoinedPrefix(chunks: seq<Bytes>, n: nat)
    requires n <= |chunks|
    ensures |Joined(chunks[..n])| <= |Joined(chunks)|
    decreases |chunks| - n
  {
    if n == |chunks| {
      assert chunks[..n] == chunks;
    } else {
      JoinedSnoc(chunks[..n], chunks[n]);
      assert chunks[..n + 1] == chunks[..n] + [chunks[n]];
      JoinedPrefix(chunks, n + 1);
    }
  }

  lemma HeaderGrows(content: Bytes, chunk: Bytes, n: nat)
    ensures First(content + chunk, n) == if |First(content, n)| < n
        then First(content, n) + First(chunk, n - |First(content, n)|) else First(content, n)
  {}

  class LocalStorageProvider {
    var files: Files
    const signature: Signature

    constructor (signature: Signature)
      ensures files == map[] && this.signature == signature
    {
      files := map[];
      this.signature := signature;
    }

    /** Writes chunk by chunk until the upload ends, breaks off or goes over the limit. */
    method WriteChunks(u: Upload, key: string, limit: int) returns (header: Bytes, checksum: Bytes, ok: bool)
      requires WellFormed(u)
      modifies this
      ensures ok <==> !u.breaks && (Contents(u) == [] || |Contents(u)| <= limit)
      ensures ok ==> checksum == Contents(u) && header == Header(checksum)
      ensures key in files && files - {key} == old(files) - {key} && (ok ==> files == old(files)[key := checksum])
    {
      header, checksum := [], [];
      ghost var before := files;
      files := files[key := []];
      for i := 0 to |u.chunks|
        invariant checksum == Joined(u.chunks[..i]) && header == Header(checksum) && files == before[key := checksum]
        invariant (checksum == [] || |checksum| <= limit) && (i == |u.chunks| ==> checksum == Contents(u))
      {
        var chunk := u.chunks[i];
        JoinedOnward(u.chunks, i);
        HeaderGrows(checksum, chunk, SIGNATURE_BUFFER_SIZE);
        assert chunk in u.chunks;
        if |checksum| + |chunk| > limit {
          return header, checksum, false;
        }
        if |header| < SIGNATURE_BUFFER_SIZE {
          header := header + First(chunk, SIGNATURE_BUFFER_SIZE - |header|);
        }
        checksum := checksum + chunk;
        files := files[key := checksum];
      }
      ok := !u.breaks;
    }

    /** Saves exactly the accepted uploads, whole; any other upload leaves no trace. */
    method Save(u: Upload, key: string, limit: int) returns (r: Option<StoredFile>)
      requires WellFormed(u) && key !in files
      modifies this
      ensures Accepted(u, limit, signature) ==>
          r == Some(Stored(u, key, signature)) && files == old(files)[key := Contents(u)]
      ensures !Accepted(u, limit, signature) ==> r == None && files == old(files)
    {
      var header, checksum, ok := WriteChunks(u, key, limit);
      if !ok || checksum == [] {
        files := files - {key};
        return None;
      }
      var kind := signature(u.extension, header, files[key]);
      if kind.None? {
        files := files - {key};
        return None;
      }
      return Some(StoredFile(key, |checksum|, checksum, kind.value, u.extension));
    }

    method SaveBytes(content: Bytes, key: string)
      modifies this
      ensures files == old(files)[key := content]
    {
      files := files[key := content];
    }

    /** Deleting a missing file does nothing; a failing deletion leaves the file. */
    method Delete(key: string, fails: bool) returns (ok: bool)
      modifies this
      ensures ok == !fails
      ensures files == if fails then old(files) else old(files) - {key}
    {
      if fails { return false; }
      if key in files { files := files - {key}; }
      return true;
    }

    /** Deletes one key after the other and stops at the first failure: after `working` deletions. */
    method DeleteMany(keys: seq<string>, working: nat) returns (ok: bool)
      modifies this
      ensures files == old(files) - DeletedOf(keys, working)
      ensures ok <==> working >= |keys|
    {
      for i := 0 to |keys|
        invariant i <= working
        invariant files == old(files) - DeletedOf(keys, i)
      {
        var deleted := Delete(keys[i], i >= working);
        if !deleted { return false; }
      }
      return true;
    }
  }

  /** The first `n` of the keys. */
  function DeletedOf(keys: seq<string>, n: nat): set<string> { set i | 0 <= i < |keys| && i < n :: keys[i] }
}
