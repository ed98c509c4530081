/** The integration test's main workflow, replayed against the store's contracts. */
module Workflow {
  import opened Wrappers
  import opened Models
  import opened Files
  import opened Strconv
  import opened Store

  /**
   * Starting from the file holding the empty document: create, rename, create
   * again, look up, list, delete, list, and look up "0". The clock readings
   * `t1 < t2 <= t3` stand for the calls' `time.Now()`.
   */
  method MainWorkFlow(t1: int, t2: int, t3: int)
    requires t1 < t2 <= t3
  {
    var disk := new Disk(Some(Marshal(EmptyStore)), NoFaults);
    var store := new Store(disk);

    var ivan := store.CreateUser(UserRequest("Ivan Ivanov", "test@email.com"), t1);
    assert Itoa(1) == "1";
    assert ivan == Ok(User(1, "Ivan Ivanov", "test@email.com", t1, t1));

    var masha := store.UpdateUser("1", "Masha", t2);
    assert masha == Ok(User(1, "Masha", "test@email.com", t1, t2));
    assert masha.value.updated > masha.value.created;

    var kar := store.CreateUser(UserRequest("Kar Karich", "poop@mail.com"), t3);
    assert Itoa(2) == "2";
    assert kar.Ok? && kar.value.id == 2 && kar.value.created == kar.value.updated;

    var got := store.User("2");
    assert got == kar;

    var all := store.SearchUsers();
    assert all.Ok? && all.value.increment == 2;
    assert all.value.list.Keys == {"1", "2"};
    assert |all.value.list| == 2;

    var deleted := store.DeleteUser("1");
    assert deleted == Pass;

    var rest := store.SearchUsers();
    assert rest.Ok? && rest.value.list.Keys == {"2"};
    assert |rest.value.list| == 1;

    var zero := store.User("0");
    assert zero == Err(UserNotFound);
  }
}
