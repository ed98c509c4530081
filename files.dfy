/**
 * The backing file and the JSON codec, abstracted. The file's bytes are either
 * the encoding of a document or something that does not decode (an empty file
 * left by `os.Create`, a hand-edited or truncated file).
 */
module Files {
  import opened Wrappers
  import opened Models

  datatype Bytes = Undecodable | Encoding(doc: UserStore)

  /** `json.Unmarshal` into a `UserStore`. */
  function Unmarshal(b: Bytes): Option<UserStore> {
    match b
    case Undecodable => None
    case Encoding(doc) => Some(doc)
  }

  /** `json.Marshal` of a `UserStore`: decoding gives the document back. */
  function Marshal(doc: UserStore): (b: Bytes)
    ensures Unmarshal(b) == Some(doc)
  {
    Encoding(doc)
  }

  /** Why a file operation failed: the file is absent, or any other fault (permissions, disk). */
  datatype IoError = NotExist | Denied

  /**
   * Which primitive operations the environment refuses. `os.Create` fails with
   * the error the environment picks: `NotExist` when a directory on the path is
   * missing, `Denied` for any other refusal.
   */
  datatype Faults = Faults(read: bool, create: Option<IoError>, write: bool)

  const NoFaults := Faults(false, None, false)

  /** What `os.ReadFile` on the store's path returns. */
  function ReadResult(file: Option<Bytes>, faults: Faults): (r: Result<Bytes, IoError>)
    ensures r.Ok? <==> file.Some? && !faults.read
    ensures r.Ok? ==> file == Some(r.value)
    ensures r == Err(NotExist) <==> file.None?
  {
    match file
    case None => Err(NotExist)
    case Some(b) => if faults.read then Err(Denied) else Ok(b)
  }

  /** The file at the store's path, with the faults the environment injects. */
  class Disk {
    /** The file's contents, or `None` when no file exists at the path. */
    var file: Option<Bytes>
    const faults: Faults

    constructor (file: Option<Bytes>, faults: Faults)
      ensures this.file == file && this.faults == faults
    {
      this.file := file;
      this.faults := faults;
    }

    /** `os.ReadFile`. */
    method ReadFile() returns (r: Result<Bytes, IoError>)
      ensures r == ReadResult(file, faults)
    {
      if file.None? {
        r := Err(NotExist);
      } else if faults.read {
        r := Err(Denied);
      } else {
        r := Ok(file.value);
      }
    }

    /** `os.Create`: creates (or truncates to) an empty file. */
    method Create() returns (r: Outcome<IoError>)
      modifies this
      ensures faults.create.Some? ==> r == Fail(faults.create.value) && file == old(file)
      ensures faults.create.None? ==> r == Pass && file == Some(Undecodable)
    {
      if faults.create.Some? {
        r := Fail(faults.create.value);
      } else {
        file := Some(Undecodable);
        r := Pass;
      }
    }

    /** `os.WriteFile`: replaces the whole file, or fails and leaves it as it was. */
    method WriteFile(b: Bytes) returns (r: Outcome<IoError>)
      modifies this
      ensures faults.write ==> r == Fail(Denied) && file == old(file)
      ensures !faults.write ==> r == Pass && file == Some(b)
    {
      if faults.write {
        r := Fail(Denied);
      } else {
        file := Some(b);
        r := Pass;
      }
    }
  }
}
