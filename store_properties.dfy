/** What the store promises about its document and its file, stated over the specification functions. */
module StoreProperties {
  import opened Wrappers
  import opened Models
  import opened Files
  import opened Strconv
  import opened Store

  // ---------------------------------------------------------------------------
  // Keys

  /** In a valid document a key names exactly the record whose ID it spells. */
  lemma KeyNamesItsRecord(doc: UserStore, k: string, id: int)
    requires Valid(doc) && k in doc.list
    ensures k == Itoa(id) <==> doc.list[k].id == id
  {
    ItoaInjective(doc.list[k].id, id);
  }

  /** No record is ever stored under "0": IDs start at 1. */
  lemma ZeroNeverFound(doc: UserStore)
    requires Valid(doc)
    ensures "0" !in doc.list
  {
    if "0" in doc.list {
      assert Itoa(0) == "0";
      KeyNamesItsRecord(doc, "0", 0);
      assert false;
    }
  }

  /** Keys are canonical: a zero-padded key such as "01" names no record. */
  lemma PaddedKeyNeverFound(doc: UserStore)
    requires Valid(doc)
    ensures "01" !in doc.list
  {
  }

  /** The key the next ID will take is not in use. */
  lemma NextKeyFresh(doc: UserStore)
    requires Valid(doc) && doc.increment < MaxInt
    ensures Itoa(doc.increment + 1) !in doc.list
  {
    var key := Itoa(doc.increment + 1);
    if key in doc.list {
      KeyNamesItsRecord(doc, key, doc.increment + 1);
      assert false;
    }
  }

  // ---------------------------------------------------------------------------
  // CreateUser, UpdateUser, DeleteUser on the document

  /** Create bumps the counter by one and gives the new record that value, the request's fields and equal stamps. */
  lemma CreateIssuesNextId(doc: UserStore, req: UserRequest, now: int)
    requires doc.increment < MaxInt
    ensures var u := NewUser(doc, req, now);
            var after := WithNewUser(doc, req, now);
            && after.increment == doc.increment + 1 == u.id
            && u.displayName == req.displayName && u.email == req.email
            && u.created == now && u.updated == now
            && Itoa(u.id) in after.list && after.list[Itoa(u.id)] == u
  {
  }

  /** Create on a valid document inserts under a fresh key and keeps every prior entry. */
  lemma CreateKeepsOthers(doc: UserStore, req: UserRequest, now: int)
    requires Valid(doc) && doc.increment < MaxInt
    ensures var key := Itoa(doc.increment + 1);
            var after := WithNewUser(doc, req, now);
            && key !in doc.list
            && after.list.Keys == doc.list.Keys + {key}
            && |after.list| == |doc.list| + 1
            && (forall k :: k in doc.list ==> after.list[k] == doc.list[k])
  {
    NextKeyFresh(doc);
  }

  /** Create keeps a valid document valid, and records created by `now` stay so. */
  lemma CreateKeepsValid(doc: UserStore, req: UserRequest, now: int)
    requires Valid(doc) && doc.increment < MaxInt
    ensures Valid(WithNewUser(doc, req, now))
    ensures CreatedBy(doc, now) ==> CreatedBy(WithNewUser(doc, req, now), now)
  {
  }

  /** Update touches only the display name and the `updated` stamp of the one record. */
  lemma UpdateChangesOnlyNameAndStamp(doc: UserStore, id: string, name: string, now: int)
    requires id in doc.list
    ensures var after := WithRenamed(doc, id, name, now);
            var u := doc.list[id];
            && after.increment == doc.increment
            && after.list.Keys == doc.list.Keys
            && after.list[id] == User(u.id, name, u.email, u.created, now)
            && forall k :: k in doc.list && k != id ==> after.list[k] == doc.list[k]
  {
  }

  /** Update with a clock that has not gone backwards keeps the document valid; a later clock makes `updated` pass `created`. */
  lemma UpdateKeepsValid(doc: UserStore, id: string, name: string, now: int)
    requires Valid(doc) && CreatedBy(doc, now) && id in doc.list
    ensures Valid(WithRenamed(doc, id, name, now)) && CreatedBy(WithRenamed(doc, id, name, now), now)
    ensures now > doc.list[id].created ==>
              WithRenamed(doc, id, name, now).list[id].updated > WithRenamed(doc, id, name, now).list[id].created
  {
  }

  /** Delete removes exactly the one key and leaves the counter alone. */
  lemma DeleteRemovesExactlyKey(doc: UserStore, id: string)
    requires id in doc.list
    ensures var after := Without(doc, id);
            && after.increment == doc.increment
            && after.list.Keys == doc.list.Keys - {id}
            && |after.list| == |doc.list| - 1
            && forall k :: k in after.list ==> after.list[k] == doc.list[k]
  {
    var after := Without(doc, id);
    assert after.list.Keys == doc.list.Keys - {id};
  }

  /** Delete keeps the document valid and introduces no record. */
  lemma DeleteKeepsValid(doc: UserStore, id: string, now: int)
    requires Valid(doc)
    ensures Valid(Without(doc, id))
    ensures CreatedBy(doc, now) ==> CreatedBy(Without(doc, id), now)
  {
  }

  /** The ID a create issues after a delete is above every ID the document ever held, the deleted one included. */
  lemma DeletedIdNeverReissued(doc: UserStore, id: string, req: UserRequest, now: int)
    requires Valid(doc) && id in doc.list && doc.increment < MaxInt
    ensures var u := NewUser(Without(doc, id), req, now);
            && u.id != doc.list[id].id
            && Itoa(u.id) != id
            && forall k :: k in doc.list ==> u.id > doc.list[k].id
  {
    KeyNamesItsRecord(doc, id, doc.increment + 1);
  }

  // ---------------------------------------------------------------------------
  // connectStore

  /** A missing file becomes the empty document, written once and read back once. */
  lemma ConnectInitialisesMissingFile(faults: Faults)
    requires faults.create.None? && !faults.write
    ensures var c := Connection(None, faults);
            && c.file == Some(Marshal(EmptyStore))
            && c.result == (if faults.read then Err(Io(Denied)) else Ok(EmptyStore))
  {
  }

  /**
   * An existing file is never written by connecting: its failures are reported
   * as they are (a read fault as an I/O error, undecodable bytes as a decode
   * error) and a decodable file yields its document.
   */
  lemma ConnectLeavesExistingFile(file: Option<Bytes>, faults: Faults)
    requires file.Some?
    ensures var c := Connection(file, faults);
            && c.file == file
            && (faults.read ==> c.result == Err(Io(Denied)))
            && (!faults.read && file.value.Undecodable? ==> c.result == Err(Decode))
            && (!faults.read && file.value.Encoding? ==> c.result == Ok(file.value.doc))
  {
  }

  /**
   * Connecting writes only when the file is missing; it reports `NotExist` only
   * when creating the missing file failed that way, and never reports a missing record.
   */
  lemma ConnectWritesOnlyWhenMissing(file: Option<Bytes>, faults: Faults)
    ensures Connection(file, faults).file != file ==> file.None?
    ensures Connection(file, faults).result == Err(Io(NotExist)) <==>
              file.None? && faults.create == Some(NotExist)
    ensures Connection(file, faults).result != Err(UserNotFound)
  {
  }

  /** A second connection finds what the first left: the same file, and the same document when the first succeeded. */
  lemma ConnectSettles(file: Option<Bytes>, faults: Faults)
    ensures var c := Connection(file, faults);
            var c2 := Connection(c.file, faults);
            && c2.file == c.file
            && (c.result.Ok? ==> c2.result == c.result)
  {
  }

  // ---------------------------------------------------------------------------
  // Whole operations on the file

  /** A create, update or delete that fails leaves the file as connecting left it; an existing file is not touched. */
  lemma FailedMutationWritesNothing(file: Option<Bytes>, faults: Faults, req: UserRequest, id: string, name: string, now: int)
    ensures var c := Connection(file, faults);
            var cr := CreateEffect(file, faults, req, now);
            var up := UpdateEffect(file, faults, id, name, now);
            var de := DeleteEffect(file, faults, id);
            && (cr.result.Err? ==> cr.file == c.file)
            && (up.result.Err? ==> up.file == c.file)
            && (de.result.Err? ==> de.file == c.file)
            && (file.Some? && cr.result.Err? ==> cr.file == file)
            && (file.Some? && up.result.Err? ==> up.file == file)
            && (file.Some? && de.result.Err? ==> de.file == file)
  {
  }

  /** A missing record is reported as `UserNotFound` by lookup, update and delete alike, with no write. */
  lemma NotFoundIsConsistent(file: Option<Bytes>, faults: Faults, id: string, name: string, now: int)
    ensures var c := Connection(file, faults);
            var absent := c.result.Ok? && id !in c.result.value.list;
            && (GetEffect(file, faults, id) == Effect(Err(UserNotFound), c.file) <==> absent)
            && (UpdateEffect(file, faults, id, name, now) == Effect(Err(UserNotFound), c.file) <==> absent)
            && (DeleteEffect(file, faults, id) == Effect(Err(UserNotFound), c.file) <==> absent)
  {
  }

  /** Lookup never writes beyond initialising a missing file, and finds exactly the stored record. */
  lemma GetOnlyReads(file: Option<Bytes>, faults: Faults, id: string)
    ensures var c := Connection(file, faults);
            var g := GetEffect(file, faults, id);
            && g.file == c.file
            && (g.result.Ok? <==> c.result.Ok? && id in c.result.value.list)
            && (g.result.Ok? ==> g.result.value == c.result.value.list[id])
  {
  }

  /** A successful create, update or delete writes exactly the changed document. */
  lemma SuccessWritesChangedDocument(file: Option<Bytes>, faults: Faults, req: UserRequest, id: string, name: string, now: int)
    ensures var c := Connection(file, faults);
            var cr := CreateEffect(file, faults, req, now);
            var up := UpdateEffect(file, faults, id, name, now);
            var de := DeleteEffect(file, faults, id);
            && (cr.result.Ok? ==> c.result.Ok? && cr.file == Some(Marshal(WithNewUser(c.result.value, req, now)))
                                  && cr.result.value == NewUser(c.result.value, req, now))
            && (up.result.Ok? ==> c.result.Ok? && id in c.result.value.list
                                  && up.file == Some(Marshal(WithRenamed(c.result.value, id, name, now)))
                                  && up.result.value == c.result.value.list[id].(displayName := name, updated := now))
            && (de.result.Ok? ==> c.result.Ok? && id in c.result.value.list
                                  && de.file == Some(Marshal(Without(c.result.value, id))))
  {
  }

  /** Connecting keeps the file consistent and hands out only valid documents. */
  lemma ConnectKeepsConsistent(file: Option<Bytes>, faults: Faults, now: int)
    requires Consistent(file, now)
    ensures Consistent(Connection(file, faults).file, now)
    ensures HasRoom(file) ==> HasRoom(Connection(file, faults).file)
    ensures Connection(file, faults).result.Ok? ==>
              Valid(Connection(file, faults).result.value) && CreatedBy(Connection(file, faults).result.value, now)
  {
  }

  /**
   * Every operation keeps the file consistent, given a clock that has not gone
   * backwards and, for create, a counter below the largest `int`.
   */
  lemma OperationsKeepConsistent(file: Option<Bytes>, faults: Faults, req: UserRequest, id: string, name: string, now: int)
    requires Consistent(file, now)
    ensures HasRoom(file) ==> Consistent(CreateEffect(file, faults, req, now).file, now)
    ensures Consistent(GetEffect(file, faults, id).file, now)
    ensures Consistent(UpdateEffect(file, faults, id, name, now).file, now)
    ensures Consistent(DeleteEffect(file, faults, id).file, now)
  {
    ConnectKeepsConsistent(file, faults, now);
    var c := Connection(file, faults);
    if c.result.Ok? {
      var doc := c.result.value;
      if HasRoom(file) {
        assert doc.increment < MaxInt;
        CreateKeepsValid(doc, req, now);
      }
      if id in doc.list {
        UpdateKeepsValid(doc, id, name, now);
        DeleteKeepsValid(doc, id, now);
      }
    }
  }

  /**
   * When `os.Create` succeeds but writing the empty document fails, the empty
   * file stays behind; from then on every connection, on any disk, fails
   * (with a decode error once the file can be read) and never re-initialises.
   */
  lemma InterruptedInitialisationSticks(faults: Faults, later: Faults)
    requires faults.create.None? && faults.write
    ensures Connection(None, faults) == Effect(Err(Io(Denied)), Some(Undecodable))
    ensures var c := Connection(Some(Undecodable), later);
            && c.file == Some(Undecodable)
            && c.result == (if later.read then Err(Io(Denied)) else Err(Decode))
  {
  }

  /**
   * Go's `Increment++` wraps at the largest `int`: the record created then gets
   * a negative ID and the document stops being valid.
   */
  lemma CounterWrapsAtMaxInt(doc: UserStore, req: UserRequest, now: int)
    requires doc.increment == MaxInt
    ensures NewUser(doc, req, now).id == MinInt
    ensures !Valid(WithNewUser(doc, req, now))
  {
  }
}
