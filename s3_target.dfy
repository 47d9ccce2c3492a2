/** `FireflowerS3Target`: an object-storage target that, when a local root is
    configured, resolves its `s3://` path to a local file instead. */
module S3Targets {
  import opened Wrappers
  import opened LocalPaths

  /** The kind of file handle `open` builds on the local file. Raw buffered
      handles are returned for compressed targets, whose caller adds the gzip
      framing; text handles wrap the buffered ones otherwise. */
  datatype HandleKind = BufferedReader | BufferedWriter | TextReader | TextWriter {
    predicate IsText() { this == TextReader || this == TextWriter }
    predicate IsWriter() { this == BufferedWriter || this == TextWriter }
  }

  /** What `open` hands back: the remote store's own handle, or a handle on a local file. */
  datatype Handle = Remote(mode: string) | Local(path: string, kind: HandleKind)

  /** The exceptions the targets raise themselves. A `TypeError` names the
      keyword that the caller's keyword arguments supply a second time. */
  datatype TargetError = ValueError(message: string) | TypeError(keyword: string)

  predicate SupportedMode(mode: string) {
    mode == "r" || mode == "w"
  }

  class FireflowerS3Target {
    const path: string
    /** The `LOCAL_S3_PATH` setting, read once at construction. */
    const localS3Path: Option<string>
    /** Only subclasses set `compressed`; `open` reads it with default `False`. */
    const compressed: bool

    constructor (path: string, localS3Path: Option<string>)
      ensures this.path == path && this.localS3Path == localS3Path && !compressed
    {
      this.path := path;
      this.localS3Path := localS3Path;
      this.compressed := false;
    }

    constructor WithCompression(path: string, localS3Path: Option<string>, compressed: bool)
      ensures this.path == path && this.localS3Path == localS3Path && this.compressed == compressed
    {
      this.path := path;
      this.localS3Path := localS3Path;
      this.compressed := compressed;
    }

    /** The local root is in use when it is set to a non-empty string (Python truthiness). */
    predicate UsesLocalRoot() {
      localS3Path.Some? && localS3Path.value != []
    }

    /** The local stand-in file: every `s3://` removed from the path, and the
        rest joined onto the local root. A relative remainder lands under the
        root, after a `/` that is added exactly when the root does not already
        end in one; an absolute remainder replaces the root. */
    function LocalPath(): (r: string)
      requires UsesLocalRoot()
      ensures var rel := StripScheme(path);
        && (IsAbsolute(rel) ==> r == rel)
        && (!IsAbsolute(rel) ==>
              |rel| <= |r| && localS3Path.value <= r && r[|r| - |rel|..] == rel
              && |r| == |localS3Path.value| + |rel|
                        + (if localS3Path.value[|localS3Path.value| - 1] == '/' then 0 else 1)
              && r[|r| - |rel| - 1] == '/')
    {
      PosixJoin(localS3Path.value, StripScheme(path))
    }

    /** With a local root, whether the local file is a regular file
        (`isFile` stands for `os.path.isfile`); otherwise the remote store's
        answer `remoteExists`. */
    function Exists(isFile: string -> bool, remoteExists: bool): (b: bool)
      ensures UsesLocalRoot() ==> b == isFile(LocalPath())
      ensures !UsesLocalRoot() ==> b == remoteExists
    {
      if UsesLocalRoot() then isFile(LocalPath()) else remoteExists
    }

    /** `open(mode)`: the mode is checked first; then the call goes to the
        remote store, or to the local file with a handle chosen by mode and
        compression. */
    function Open(mode: string): (r: Result<Handle, TargetError>)
      ensures r.Err? <==> !SupportedMode(mode)
      ensures r.Err? ==> r.error == ValueError("Unsupported open mode '" + mode + "'")
      ensures r.Ok? && !UsesLocalRoot() ==> r.value == Remote(mode)
      ensures r.Ok? && UsesLocalRoot() ==>
        && r.value.Local?
        && r.value.path == LocalPath()
        && (r.value.kind.IsWriter() <==> mode == "w")
        && (r.value.kind.IsText() <==> !compressed)
    {
      if !SupportedMode(mode) then
        Err(ValueError("Unsupported open mode '" + mode + "'"))
      else if !UsesLocalRoot() then
        Ok(Remote(mode))
      else if mode == "w" then
        Ok(Local(LocalPath(), if compressed then BufferedWriter else TextWriter))
      else
        Ok(Local(LocalPath(), if compressed then BufferedReader else TextReader))
    }
  }

  /** Reading and writing one target address the same place: the remote
      object, or the very local file whose existence `Exists` reports. */
  lemma OpenAddressesOneFile(t: FireflowerS3Target, m1: string, m2: string)
    requires SupportedMode(m1) && SupportedMode(m2)
    ensures t.Open(m1).Ok? && t.Open(m2).Ok?
    ensures t.Open(m1).value.Local? <==> t.UsesLocalRoot()
    ensures t.UsesLocalRoot() ==>
      t.Open(m1).value.path == t.Open(m2).value.path == t.LocalPath()
    ensures forall isFile: string -> bool, remote: bool :: t.UsesLocalRoot() ==>
      t.Exists(isFile, remote) == isFile(t.Open(m1).value.path)
  {
  }

  lemma ExampleUriStripped(path: string)
    requires path == "s3://bucket/key.csv"
    ensures StripScheme(path) == "bucket/key.csv"
  {
    var rest := "bucket/key.csv";
    assert ':' !in rest;
    forall i | 0 <= i <= |rest| - |Scheme| ensures !SchemeAt(rest, i) {
      assert rest[i..i + |Scheme|][2] == rest[i + 2];
    }
    assert path == Scheme + rest;
    StripSchemeOfUri(rest);
  }

  /** With `LOCAL_S3_PATH=/tmp/root`, `s3://bucket/key.csv` lives at `/tmp/root/bucket/key.csv`. */
  lemma LocalPathExample(t: FireflowerS3Target)
    requires t.localS3Path == Some("/tmp/root") && t.path == "s3://bucket/key.csv"
    ensures t.LocalPath() == "/tmp/root/bucket/key.csv"
  {
    ExampleUriStripped(t.path);
    ExampleJoin(t.localS3Path.value, StripScheme(t.path));
  }

  lemma ExampleJoin(root: string, rel: string)
    requires root == "/tmp/root" && rel == "bucket/key.csv"
    ensures PosixJoin(root, rel) == "/tmp/root/bucket/key.csv"
  {
    assert !IsAbsolute(rel) && root[|root| - 1] != '/';
  }
}
