/** The world outside the server, as oracles: what lstat, access, scandir,
    fopen and fgets report, and the MIME type libmagic finds for a path. The
    model never touches a file; each call's answer is a total function of its
    arguments, fixed for one response. */
module Env {
  import opened CStrings

  /** A string that strerror, realpath or the C library hands back. */
  type CString = s: string | NoNul(s) witness ""

  /** A directory entry's `d_name`: a C string of at most NAME_MAX bytes. */
  type FileName = s: string | NoNul(s) && |s| <= NAME_MAX witness ""

  /** What S_ISREG and S_ISDIR say of `st_mode`; a symbolic link is
      `OtherKind`, since lstat does not follow it. */
  datatype FileKind = Regular | Directory | OtherKind

  datatype StatResult = StatOk(kind: FileKind) | StatError(message: CString)

  /** The errno values access(2) failures are told apart by. */
  datatype Errno = EACCES | ENOENT | OtherErrno(message: CString)

  datatype AccessResult = Accessible | Denied(errno: Errno)

  /** R_OK, and R_OK | X_OK. */
  datatype Mode = ReadOnly | ReadSearch

  /** scandir(3): the names the directory holds, in the order readdir
      returns them, or the failure. */
  datatype ScanResult = Listing(names: seq<FileName>) | ScanError(message: CString)

  /** fopen(3) of a file, with the bytes fgets reads from it before end of
      file or a read error; or the failure of fopen. */
  datatype OpenResult = Opened(content: string) | OpenError(message: CString)

  /** Standard input as fgets sees it: the bytes available, or a read error
      that makes the first fgets fail. */
  datatype Stdin = Received(content: string) | ReadError(message: CString)

  datatype FileSystem = FileSystem(
    lstat: string -> StatResult,
    mime: string -> Option<CString>,
    access: (string, Mode) -> AccessResult,
    scandir: string -> ScanResult,
    open: string -> OpenResult)
}
