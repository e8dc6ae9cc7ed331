/** The data directory as the loader sees it: which paths exist and what
    `pd.read_csv` makes of each file under each text encoding. Decoding and
    CSV parsing are not modelled; a stored file records their outcome. The
    `FileSystem` object logs every existence probe and every read, so that
    the loader's order of work is observable. */
module Files {
  import opened Wrappers
  import opened Tables

  type Path = string

  /** `directory / name` for a relative file name. */
  function Join(directory: Path, name: string): Path
  {
    directory + "/" + name
  }

  /** Distinct names in one directory resolve to distinct paths. */
  lemma JoinInjective(directory: Path, a: string, b: string)
    requires a != b
    ensures Join(directory, a) != Join(directory, b)
  {
    assert Join(directory, a)[|directory| + 1..] == a;
    assert Join(directory, b)[|directory| + 1..] == b;
  }

  datatype Encoding = Utf8 | Latin1

  /** What `read_csv` does with a file under one encoding. */
  datatype Parse = Parsed(table: Table) | Undecodable | Malformed(reason: string)

  datatype StoredFile = StoredFile(asUtf8: Parse, asLatin1: Parse)

  /** An exception raised by `read_csv`. */
  datatype ReadError =
    | NoSuchFile(path: Path)                          // FileNotFoundError
    | DecodeError(path: Path, encoding: Encoding)     // UnicodeDecodeError
    | ParserError(path: Path, reason: string)         // any other read failure

  datatype Access = Probe(path: Path) | Read(path: Path, encoding: Encoding)

  /** pandas' `read_csv` of `path` under `encoding`, against the stored files. */
  function ReadAs(files: map<Path, StoredFile>, path: Path, encoding: Encoding): (r: Result<Table, ReadError>)
    ensures path !in files ==> r == Failure(NoSuchFile(path))
    ensures r.Failure? ==> r.error.path == path
  {
    if path !in files then Failure(NoSuchFile(path))
    else
      match (if encoding == Utf8 then files[path].asUtf8 else files[path].asLatin1)
      case Parsed(t) => Success(t)
      case Undecodable => Failure(DecodeError(path, encoding))
      case Malformed(reason) => Failure(ParserError(path, reason))
  }

  class FileSystem {
    const files: map<Path, StoredFile>
    var accesses: seq<Access>

    constructor (files: map<Path, StoredFile>)
      ensures this.files == files && accesses == []
    {
      this.files := files;
      accesses := [];
    }

    /** `path.exists()`. */
    method Exists(path: Path) returns (b: bool)
      modifies this
      ensures b <==> path in files
      ensures accesses == old(accesses) + [Probe(path)]
    {
      b := path in files;
      accesses := accesses + [Probe(path)];
    }

    /** pandas' `read_csv` of `path` under `encoding`, logged. */
    method ReadCsv(path: Path, encoding: Encoding) returns (r: Result<Table, ReadError>)
      modifies this
      ensures r == ReadAs(files, path, encoding)
      ensures accesses == old(accesses) + [Read(path, encoding)]
    {
      r := ReadAs(files, path, encoding);
      accesses := accesses + [Read(path, encoding)];
    }
  }
}
