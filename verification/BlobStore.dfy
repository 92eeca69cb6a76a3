/** The blob store over an idealised file system: a map from paths to contents. */
module BlobStore {
  import opened Common
  import opened BlobPaths

  newtype byte = x: int | 0 <= x < 256

  type Bytes = seq<byte>

  const CHUNK := 65536

  datatype BlobRef = BlobRef(bucket: string, key: string, contentType: Option<string>, size: nat)

  datatype BlobError = InvalidPath(e: PathError) | FileNotFound

  function Flatten(chunks: seq<Bytes>): Bytes {
    if chunks == [] then [] else Flatten(chunks[..|chunks| - 1]) + chunks[|chunks| - 1]
  }

  class LocalBlobStorage {
    const base: ResolvedPath
    var files: map<Path, Bytes>

    /** The base path is resolved once, here. */
    constructor (basePath: Path)
      ensures base == Normalised(basePath) && (Resolved(basePath) ==> base == basePath)
      ensures files == map[]
    {
      NormalForm(basePath, basePath);
      base := Resolve([], Parsed(basePath));
      files := map[];
    }

    /** Check one part: characters first, then each of its segments. */
    method CheckValue(part: Part, value: string) returns (e: Option<PathError>)
      ensures e == CheckPart(part, value)
    {
      if value == "" { return Some(Empty(part)); }
      if '\0' in value { return Some(Nul(part)); }
      if '\\' in value { return Some(Backslash(part)); }
      if "/" <= value { return Some(Absolute(part)); }
      if ':' in value { return Some(Colon(part)); }
      var segments := Split(value);
      var i := 0;
      while i < |segments|
        invariant i <= |segments|
        invariant CheckSegments(part, segments) == CheckSegments(part, segments[i..])
      {
        if segments[i] == ".." { return Some(DotDotSegment(part)); }
        if segments[i] == "." { return Some(DotSegment(part)); }
        if segments[i] == "" { return Some(EmptySegment(part)); }
        i := i + 1;
      }
      e := None;
    }

    method Validate(bucket: string, key: string) returns (r: Result<Path, PathError>)
      ensures r == ValidatePath(base, bucket, key)
      ensures r.Success? ==> Clean(bucket) && Clean(key) && r.value == base + Split(bucket) + Split(key)
      ensures r.Failure? ==> IsFault(Bucket, bucket, r.error) || (Clean(bucket) && IsFault(Key, key, r.error))
    {
      var parts := [(Bucket, bucket), (Key, key)];
      var i := 0;
      while i < 2
        invariant 0 <= i <= 2
        invariant i >= 1 ==> CheckPart(Bucket, bucket).None?
        invariant i >= 2 ==> CheckPart(Key, key).None?
      {
        var e := CheckValue(parts[i].0, parts[i].1);
        if e.Some? {
          PartFaults(parts[i].0, parts[i].1, e.value);
          PartChecked(Bucket, bucket);
          return Failure(e.value);
        }
        i := i + 1;
      }
      var full := Resolve([], Divide(Divide(base, bucket), key));
      r := if base <= full then Success(full) else Failure(OutsideBase);
      AcceptedPaths(base, bucket, key);
    }

    method Put(bucket: string, key: string, data: Bytes,
        contentType: Option<string>) returns (r: Result<BlobRef, BlobError>)
      modifies this`files
      ensures Clean(bucket) && Clean(key) ==>
                && files == old(files)[base + Split(bucket) + Split(key) := data]
                && r == Success(BlobRef(bucket, key, contentType, |data|))
      ensures !(Clean(bucket) && Clean(key)) ==> files == old(files) && r.Failure? && r.error.InvalidPath?
      ensures files == Do(base, old(files), Op.Put(bucket, key, data))
      ensures r == match ValidatePath(base, bucket, key)
                   case Success(_) => Success(BlobRef(bucket, key, contentType, |data|))
                   case Failure(e) => Failure(InvalidPath(e))
    {
      var target := Validate(bucket, key);
      AcceptedPaths(base, bucket, key);
      if target.Failure? { return Failure(InvalidPath(target.error)); }
      files := files[target.value := data];
      r := Success(BlobRef(bucket, key, contentType, |data|));
    }

    method Delete(bucket: string, key: string) returns (r: Result<(), BlobError>)
      modifies this`files
      ensures Clean(bucket) && Clean(key) ==>
                r == Success(()) && files == old(files) - {base + Split(bucket) + Split(key)}
      ensures !(Clean(bucket) && Clean(key)) ==> files == old(files) && r.Failure? && r.error.InvalidPath?
      ensures files == Do(base, old(files), Op.Delete(bucket, key))
      ensures r == match ValidatePath(base, bucket, key)
                   case Success(_) => Success(())
                   case Failure(e) => Failure(InvalidPath(e))
    {
      var target := Validate(bucket, key);
      AcceptedPaths(base, bucket, key);
      if target.Failure? { return Failure(InvalidPath(target.error)); }
      files := files - {target.value};
      r := Success(());
    }

    /** The checks `get` makes before it hands out a stream. */
    method Get(bucket: string, key: string) returns (r: Result<Path, BlobError>)
      ensures Clean(bucket) && Clean(key) ==>
                var path := base + Split(bucket) + Split(key);
                r == if path in files then Success(path) else Failure(FileNotFound)
      ensures !(Clean(bucket) && Clean(key)) ==> r.Failure? && r.error.InvalidPath?
      ensures r == match ValidatePath(base, bucket, key)
                   case Success(path) => if path in files then Success(path) else Failure(FileNotFound)
                   case Failure(e) => Failure(InvalidPath(e))
    {
      var target := Validate(bucket, key);
      AcceptedPaths(base, bucket, key);
      if target.Failure? { return Failure(InvalidPath(target.error)); }
      r := if target.value in files then Success(target.value) else Failure(FileNotFound);
    }

    /** The stream: the file is opened when the first chunk is asked for, and read in full chunks up
        to a last one that may be shorter. */
    method Stream(target: Path) returns (r: Result<seq<Bytes>, BlobError>)
      ensures r.Success? <==> target in files
      ensures r.Failure? ==> r.error == FileNotFound
      ensures r.Success? ==> Flatten(r.value) == files[target]
      ensures r.Success? ==> forall k | 0 <= k < |r.value| :: 0 < |r.value[k]| <= 64 * 1024
      ensures r.Success? ==> forall k | 0 <= k < |r.value| - 1 :: |r.value[k]| == 64 * 1024
    {
      if target !in files { return Failure(FileNotFound); }
      var data := files[target];
      var chunks: seq<Bytes> := [];
      var pos := 0;
      while pos < |data|
        invariant 0 <= pos <= |data|
        invariant Flatten(chunks) == data[..pos]
        invariant forall k | 0 <= k < |chunks| :: 0 < |chunks[k]| <= CHUNK
        invariant pos < |data| ==> forall k | 0 <= k < |chunks| :: |chunks[k]| == CHUNK
        invariant forall k | 0 <= k < |chunks| - 1 :: |chunks[k]| == CHUNK
      {
        var n := if |data| - pos < CHUNK then |data| - pos else CHUNK;
        var chunk := data[pos..pos + n];
        assert (chunks + [chunk])[..|chunks|] == chunks;
        chunks := chunks + [chunk];
        pos := pos + n;
      }
      assert data[..|data|] == data;
      r := Success(chunks);
    }
  }

  // ---------------------------------------------------------------- runs of puts and deletes

  datatype Op = Put(bucket: string, key: string, data: Bytes) | Delete(bucket: string, key: string)

  function Do(base: Path, files: map<Path, Bytes>, op: Op): map<Path, Bytes> {
    match ValidatePath(base, op.bucket, op.key)
    case Failure(_) => files
    case Success(path) => if op.Put? then files[path := op.data] else files - {path}
  }

  /** The files after a run on an empty directory. */
  function Run(base: Path, ops: seq<Op>): map<Path, Bytes> {
    if ops == [] then map[] else Do(base, Run(base, ops[..|ops| - 1]), ops[|ops| - 1])
  }

  /** The reference: blobs belong to names, a name being the string `bucket/key`. The last accepted
      operation on a name decides. */
  ghost function LastPut(ops: seq<Op>, name: string): Option<Bytes> {
    if ops == [] then None
    else
      var op := ops[|ops| - 1];
      if Clean(op.bucket) && Clean(op.key) && op.bucket + "/" + op.key == name
      then (if op.Put? then Some(op.data) else None)
      else LastPut(ops[..|ops| - 1], name)
  }

  /** Store semantics, over every run: a file exists under an accepted pair exactly when the last
      operation on its name put it, and it holds the data that was put; so that is what the chunks
      of `Stream` add up to. */
  lemma {:induction false} StoreSemantics(base: Path, ops: seq<Op>, bucket: string, key: string)
    requires Resolved(base) && Clean(bucket) && Clean(key)
    ensures var files := Run(base, ops);
            var path := base + Split(bucket) + Split(key);
            && ValidatePath(base, bucket, key) == Success(path)
            && LastPut(ops, bucket + "/" + key) == if path in files then Some(files[path]) else None
  {
    AcceptedPaths(base, bucket, key);
    if ops != [] {
      StoreSemantics(base, ops[..|ops| - 1], bucket, key);
      var op := ops[|ops| - 1];
      AcceptedPaths(base, op.bucket, op.key);
      if Clean(op.bucket) && Clean(op.key) { SameFileIff(base, bucket, key, op.bucket, op.key); }
    }
  }
}
