/**
 * The file-backed user store. The mutating operations load the whole document,
 * change it in memory and write the whole document back; the lookup only loads
 * it, and listing only reads it. Every operation but listing loads through
 * `connectStore`, which first initialises a missing file.
 */
module Store {
  import opened Wrappers
  import opened Models
  import opened Files
  import opened Strconv

  /** The error kinds the store reports; the message text around them is not modelled. */
  datatype Error = UserNotFound | Io(cause: IoError) | Decode

  /** What an operation returns, together with the file it leaves behind. */
  datatype Effect<+T> = Effect(result: Result<T, Error>, file: Option<Bytes>)

  // ---------------------------------------------------------------------------
  // The invariant the store keeps on its document

  /**
   * Every key is the decimal string of its record's ID, every ID lies in
   * 1..increment, and no record was updated before it was created.
   */
  predicate Valid(doc: UserStore) {
    && 0 <= doc.increment
    && forall k :: k in doc.list ==>
         && k == Itoa(doc.list[k].id)
         && 0 < doc.list[k].id <= doc.increment
         && doc.list[k].created <= doc.list[k].updated
  }

  /** No record was created after instant `now`. */
  predicate CreatedBy(doc: UserStore, now: int) {
    forall k :: k in doc.list ==> doc.list[k].created <= now
  }

  /** A file that holds a document at all holds a valid one, created by `now`. */
  predicate Consistent(file: Option<Bytes>, now: int) {
    file.Some? && file.value.Encoding? ==> Valid(file.value.doc) && CreatedBy(file.value.doc, now)
  }

  /** The counter stored in the file, if it holds a document, still has room for one more ID. */
  predicate HasRoom(file: Option<Bytes>) {
    file.Some? && file.value.Encoding? ==> file.value.doc.increment < MaxInt
  }

  // ---------------------------------------------------------------------------
  // In-memory changes to the document

  /** The record `CreateUser` builds: the next ID, the requested fields, both stamps `now`. */
  function NewUser(doc: UserStore, req: UserRequest, now: int): User {
    User(Incremented(doc.increment), req.displayName, req.email, now, now)
  }

  /** The document after `CreateUser`'s in-memory change: counter bumped, record inserted under its ID's key. */
  function WithNewUser(doc: UserStore, req: UserRequest, now: int): UserStore {
    var u := NewUser(doc, req, now);
    UserStore(u.id, doc.list[Itoa(u.id) := u])
  }

  /** A record after `UpdateUser`: new display name, `updated` refreshed. */
  function Renamed(u: User, name: string, now: int): User {
    u.(displayName := name, updated := now)
  }

  /** The document after `UpdateUser`'s in-memory change to the record under `id`. */
  function WithRenamed(doc: UserStore, id: string, name: string, now: int): UserStore
    requires id in doc.list
  {
    doc.(list := doc.list[id := Renamed(doc.list[id], name, now)])
  }

  /** The document after `DeleteUser`'s in-memory change. */
  function Without(doc: UserStore, id: string): UserStore {
    doc.(list := doc.list - {id})
  }

  // ---------------------------------------------------------------------------
  // What each operation does to the file, as a function of the file before it

  /** Read the file and decode it. */
  function Load(file: Option<Bytes>, faults: Faults): Result<UserStore, Error> {
    match ReadResult(file, faults)
    case Err(e) => Err(Io(e))
    case Ok(b) =>
      match Unmarshal(b)
      case None => Err(Decode)
      case Some(doc) => Ok(doc)
  }

  /**
   * `connectStore`: an existing file is only read; a missing one is created,
   * filled with the empty document and read once more.
   */
  function Connection(file: Option<Bytes>, faults: Faults): Effect<UserStore> {
    if file.Some? then Effect(Load(file, faults), file)
    else if faults.create.Some? then Effect(Err(Io(faults.create.value)), None)
    else if faults.write then Effect(Err(Io(Denied)), Some(Undecodable))
    else
      var init := Some(Marshal(EmptyStore));
      Effect(Load(init, faults), init)
  }

  /** Write `doc` over the file `file` and report `value`, or report the write's failure. */
  function Persist<T>(value: T, doc: UserStore, file: Option<Bytes>, faults: Faults): Effect<T> {
    if faults.write then Effect(Err(Io(Denied)), file) else Effect(Ok(value), Some(Marshal(doc)))
  }

  function CreateEffect(file: Option<Bytes>, faults: Faults, req: UserRequest, now: int): Effect<User> {
    var c := Connection(file, faults);
    match c.result
    case Err(e) => Effect(Err(e), c.file)
    case Ok(doc) => Persist(NewUser(doc, req, now), WithNewUser(doc, req, now), c.file, faults)
  }

  function GetEffect(file: Option<Bytes>, faults: Faults, id: string): Effect<User> {
    var c := Connection(file, faults);
    match c.result
    case Err(e) => Effect(Err(e), c.file)
    case Ok(doc) =>
      if id in doc.list then Effect(Ok(doc.list[id]), c.file) else Effect(Err(UserNotFound), c.file)
  }

  function UpdateEffect(file: Option<Bytes>, faults: Faults, id: string, name: string, now: int): Effect<User> {
    var c := Connection(file, faults);
    match c.result
    case Err(e) => Effect(Err(e), c.file)
    case Ok(doc) =>
      if id !in doc.list then Effect(Err(UserNotFound), c.file)
      else Persist(Renamed(doc.list[id], name, now), WithRenamed(doc, id, name, now), c.file, faults)
  }

  function DeleteEffect(file: Option<Bytes>, faults: Faults, id: string): Effect<()> {
    var c := Connection(file, faults);
    match c.result
    case Err(e) => Effect(Err(e), c.file)
    case Ok(doc) =>
      if id !in doc.list then Effect(Err(UserNotFound), c.file)
      else Persist((), Without(doc, id), c.file, faults)
  }

  // ---------------------------------------------------------------------------
  // The store object

  /** A store bound to the file at its configured path (the mutex is not modelled). */
  class Store {
    const disk: Disk

    /** `New`: binds the store to its backing file. */
    constructor (disk: Disk)
      ensures this.disk == disk
    {
      this.disk := disk;
    }

    /** Returns the persisted document; a missing file is an error here, not initialised. */
    method SearchUsers() returns (r: Result<UserStore, Error>)
      ensures r == Load(disk.file, disk.faults)
      ensures disk.file.None? ==> r == Err(Io(NotExist))
      ensures r.Ok? <==> disk.file.Some? && disk.file.value.Encoding? && !disk.faults.read
      ensures r.Ok? ==> disk.file == Some(Marshal(r.value))
    {
      var file := disk.ReadFile();
      if file.Err? {
        return Err(Io(file.error));
      }
      var store := Unmarshal(file.value);
      if store.None? {
        return Err(Decode);
      }
      return Ok(store.value);
    }

    method CreateUser(req: UserRequest, now: int) returns (r: Result<User, Error>)
      modifies disk
      ensures Effect(r, disk.file) == CreateEffect(old(disk.file), disk.faults, req, now)
    {
      var connected := ConnectStore();
      if connected.Err? {
        return Err(connected.error);
      }
      var store := connected.value;
      store := store.(increment := Incremented(store.increment));
      var newUser := Models.User(store.increment, req.displayName, req.email, now, now);
      var id := Itoa(newUser.id);
      store := store.(list := store.list[id := newUser]);
      var written := disk.WriteFile(Marshal(store));
      if written.Fail? {
        return Err(Io(written.error));
      }
      return Ok(newUser);
    }

    /** `User`: looks one record up by its key. */
    method User(id: string) returns (r: Result<User, Error>)
      modifies disk
      ensures Effect(r, disk.file) == GetEffect(old(disk.file), disk.faults, id)
    {
      var connected := ConnectStore();
      if connected.Err? {
        return Err(connected.error);
      }
      var store := connected.value;
      if id !in store.list {
        return Err(UserNotFound);
      }
      return Ok(store.list[id]);
    }

    method UpdateUser(id: string, newName: string, now: int) returns (r: Result<User, Error>)
      modifies disk
      ensures Effect(r, disk.file) == UpdateEffect(old(disk.file), disk.faults, id, newName, now)
    {
      var connected := ConnectStore();
      if connected.Err? {
        return Err(connected.error);
      }
      var store := connected.value;
      if id !in store.list {
        return Err(UserNotFound);
      }
      var user := store.list[id];
      user := user.(displayName := newName);
      user := user.(updated := now);
      store := store.(list := store.list[id := user]);
      var written := disk.WriteFile(Marshal(store));
      if written.Fail? {
        return Err(Io(written.error));
      }
      return Ok(user);
    }

    method DeleteUser(id: string) returns (r: Outcome<Error>)
      modifies disk
      ensures DeleteEffect(old(disk.file), disk.faults, id) == Effect(if r.Pass? then Ok(()) else Err(r.error), disk.file)
    {
      var connected := ConnectStore();
      if connected.Err? {
        return Fail(connected.error);
      }
      var store := connected.value;
      if id !in store.list {
        return Fail(UserNotFound);
      }
      store := store.(list := store.list - {id});
      var written := disk.WriteFile(Marshal(store));
      if written.Fail? {
        return Fail(Io(written.error));
      }
      return Pass;
    }

    /**
     * `connectStore`: on a missing file, creates it, writes the empty document
     * and calls itself once more; the second call finds the file and recurses no further.
     */
    method ConnectStore() returns (r: Result<UserStore, Error>)
      modifies disk
      decreases if disk.file.None? then 1 else 0
      ensures Effect(r, disk.file) == Connection(old(disk.file), disk.faults)
    {
      var file := disk.ReadFile();
      if file.Err? {
        if file.error == NotExist {
          var created := disk.Create();
          if created.Fail? {
            return Err(Io(created.error));
          }
          var written := disk.WriteFile(Marshal(EmptyStore));
          if written.Fail? {
            return Err(Io(written.error));
          }
          r := ConnectStore();
          return;
        } else {
          return Err(Io(file.error));
        }
      }
      var store := Unmarshal(file.value);
      if store.None? {
        return Err(Decode);
      }
      return Ok(store.value);
    }
  }
}
