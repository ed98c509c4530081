/** The shapes of the persisted document and its records. */
module Models {

  /** Go's `int`, assumed 64 bits wide (as on amd64 and arm64); nothing in the program fixes the platform. */
  const MinInt: int := -0x8000_0000_0000_0000
  const MaxInt: int := 0x7fff_ffff_ffff_ffff
  type Int = x: int | MinInt <= x <= MaxInt

  /** Go's `x++` on an `int`: two's-complement wrap-around at the top. */
  function Incremented(x: Int): (r: Int)
    ensures (r - x - 1) % 0x1_0000_0000_0000_0000 == 0
  {
    if x == MaxInt then MinInt else x + 1
  }

  /** A user record; `created` and `updated` are instants on an integer clock. */
  datatype User = User(id: Int, displayName: string, email: string, created: int, updated: int)

  /** The body of a create or update request. */
  datatype UserRequest = UserRequest(displayName: string, email: string)

  /** The whole persisted document: the ID counter and the records keyed by their ID's decimal string. */
  datatype UserStore = UserStore(increment: Int, list: map<string, User>)

  /** The document written when the backing file does not exist yet. */
  const EmptyStore: UserStore := UserStore(0, map[])
}
