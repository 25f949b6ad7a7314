/// The document root as the server sees it: `build_filepath`, `get_fileinfo`
/// (over an abstract file system standing for `lstat`), `guess_content_type`,
/// and an open file descriptor that `read` copies blocks out of.
module Files {
  import opened Common

  /** What `lstat` finds at a path: a regular file with its octets (and
      whether `open` for reading will succeed), or anything else (a
      directory, a symbolic link, a device, ...). */
  datatype Entry = Regular(data: string, readable: bool) | Special

  /** Paths that `lstat` succeeds on; any other path does not exist. */
  type FileSystem = map<string, Entry>

  /** `struct FileInfo`: `size` is meaningful only when `ok`. */
  datatype FileInfo = FileInfo(path: string, size: nat, ok: bool)

  /** `build_filepath`: `"%s/%s"` of the document root and the request path,
      with no normalisation of either. The request path can be read back from
      the resolved path, so `..` segments survive. */
  function BuildFilePath(docroot: string, urlpath: string): (p: string)
    ensures |p| == |docroot| + 1 + |urlpath|
    ensures p[..|docroot|] == docroot
    ensures p[|docroot|] == '/'
    ensures p[|docroot| + 1..] == urlpath
  {
    docroot + "/" + urlpath
  }

  /** Distinct request paths under one root resolve to distinct files. */
  lemma BuildFilePathInjective(docroot: string, u1: string, u2: string)
    requires BuildFilePath(docroot, u1) == BuildFilePath(docroot, u2)
    ensures u1 == u2
  {
  }

  /** `get_fileinfo`: resolve the path and inspect it without following a
      final symbolic link. */
  function GetFileInfo(docroot: string, urlpath: string, fs: FileSystem): (info: FileInfo)
    ensures info.path == BuildFilePath(docroot, urlpath)
    ensures info.ok <==> info.path in fs && fs[info.path].Regular?
    ensures info.ok ==> info.size == |fs[info.path].data|
  {
    var path := BuildFilePath(docroot, urlpath);
    if path !in fs then FileInfo(path, 0, false)
    else match fs[path]
      case Special => FileInfo(path, 0, false)
      case Regular(data, _) => FileInfo(path, |data|, true)
  }

  /** `guess_content_type`: a stub; every file is plain text. */
  function GuessContentType(info: FileInfo): string {
    "text/plain"
  }

  /** The octets of consecutive blocks, in order. */
  function Flatten(blocks: seq<string>): string {
    if blocks == [] then [] else Flatten(blocks[..|blocks| - 1]) + blocks[|blocks| - 1]
  }

  /** A file opened for reading, with its current offset. */
  class FileDescriptor {
    const data: string
    var offset: nat

    /** `open(path, O_RDONLY)` of a readable regular file. */
    constructor (data: string)
      ensures this.data == data && offset == 0
    {
      this.data := data;
      offset := 0;
    }

    /** `read(fd, buf, buf.Length)` on a regular file: as many octets as fit
        and remain, 0 at end of file. */
    method Read(buf: array<char>) returns (n: nat)
      requires offset <= |data|
      modifies this, buf
      ensures offset <= |data|
      ensures n == if buf.Length < |data| - old(offset) then buf.Length else |data| - old(offset)
      ensures offset == old(offset) + n
      ensures buf[..n] == data[old(offset)..offset]
    {
      n := if buf.Length < |data| - offset then buf.Length else |data| - offset;
      forall k | 0 <= k < n {
        buf[k] := data[offset + k];
      }
      offset := offset + n;
    }
  }
}
