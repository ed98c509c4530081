/**
 * Sequences of store operations against a disk that never faults, as a
 * state machine over the document, and what they promise about the IDs issued.
 */
module Runs {
  import opened Wrappers
  import opened Models
  import opened Files
  import opened Store
  import opened StoreProperties

  datatype Op =
    | CreateOp(req: UserRequest, now: int)
    | GetOp(id: string)
    | UpdateOp(id: string, name: string, now: int)
    | DeleteOp(id: string)

  datatype Reply = Made(user: User) | Found(user: User) | Changed(user: User) | Removed | NotFound

  /** One operation on the document when every read and write succeeds. */
  function Step(doc: UserStore, op: Op): (UserStore, Reply) {
    match op
    case CreateOp(req, now) => (WithNewUser(doc, req, now), Made(NewUser(doc, req, now)))
    case GetOp(id) => (doc, if id in doc.list then Found(doc.list[id]) else NotFound)
    case UpdateOp(id, name, now) =>
      if id in doc.list then (WithRenamed(doc, id, name, now), Changed(Renamed(doc.list[id], name, now)))
      else (doc, NotFound)
    case DeleteOp(id) => if id in doc.list then (Without(doc, id), Removed) else (doc, NotFound)
  }

  /** The operations one after another: the final document and every reply in order. */
  function Run(doc: UserStore, ops: seq<Op>): (UserStore, seq<Reply>)
    decreases |ops|
  {
    if ops == [] then (doc, [])
    else
      var (next, reply) := Step(doc, ops[0]);
      var (last, replies) := Run(next, ops[1..]);
      (last, [reply] + replies)
  }

  /** How many of the operations are creates. */
  function Creates(ops: seq<Op>): nat {
    if ops == [] then 0 else (if ops[0].CreateOp? then 1 else 0) + Creates(ops[1..])
  }

  /** The IDs the creates among the replies handed out, in order. */
  function Issued(replies: seq<Reply>): seq<int> {
    if replies == [] then []
    else (if replies[0].Made? then [replies[0].user.id as int] else []) + Issued(replies[1..])
  }

  /** from, from + 1, ..., from + n - 1. */
  function Consecutive(from: int, n: nat): (s: seq<int>)
    ensures |s| == n
    decreases n
  {
    if n == 0 then [] else [from] + Consecutive(from + 1, n - 1)
  }

  lemma {:induction false} ConsecutiveAt(from: int, n: nat, i: nat)
    requires i < n
    ensures Consecutive(from, n)[i] == from + i
    decreases n
  {
    if i > 0 {
      ConsecutiveAt(from + 1, n - 1, i - 1);
    }
  }

  /** The clock reading an operation carries, or `t` for operations that stamp nothing. */
  function Time(op: Op, t: int): int {
    match op
    case CreateOp(_, now) => now
    case UpdateOp(_, _, now) => now
    case _ => t
  }

  /** The operations' clock readings never go below `t` and never go backwards. */
  predicate Clocked(ops: seq<Op>, t: int) {
    ops == [] || (Time(ops[0], t) >= t && Clocked(ops[1..], Time(ops[0], t)))
  }

  /** A create raises the counter by one and replies with the new value as the ID; nothing else moves the counter. */
  lemma StepMovesCounter(doc: UserStore, op: Op)
    requires op.CreateOp? ==> doc.increment < MaxInt
    ensures Step(doc, op).0.increment == doc.increment + (if op.CreateOp? then 1 else 0)
    ensures Step(doc, op).1.Made? <==> op.CreateOp?
    ensures op.CreateOp? ==> Step(doc, op).1.user.id == doc.increment + 1
  {
  }

  /**
   * Each create raises the counter by one and nothing else moves it, so the
   * IDs issued are the next values of the counter in order, without gaps,
   * whatever updates and deletes come in between.
   */
  lemma {:induction false} RunIssuesConsecutiveIds(doc: UserStore, ops: seq<Op>)
    requires doc.increment + Creates(ops) <= MaxInt
    ensures Run(doc, ops).0.increment == doc.increment + Creates(ops)
    ensures Issued(Run(doc, ops).1) == Consecutive(doc.increment + 1, Creates(ops))
    decreases |ops|
  {
    if ops != [] {
      var (next, reply) := Step(doc, ops[0]);
      StepMovesCounter(doc, ops[0]);
      RunIssuesConsecutiveIds(next, ops[1..]);
      assert Run(doc, ops).1 == [reply] + Run(next, ops[1..]).1;
      var rest := Run(next, ops[1..]).1;
      assert ([reply] + rest)[1..] == rest;
    }
  }

  /**
   * From a valid document, the issued IDs are strictly increasing and above
   * every ID the document held: no ID is issued twice, and none that was
   * deleted comes back.
   */
  lemma IssuedIdsAreFresh(doc: UserStore, ops: seq<Op>)
    requires Valid(doc) && doc.increment + Creates(ops) <= MaxInt
    ensures var ids := Issued(Run(doc, ops).1);
            && (forall i, j :: 0 <= i < j < |ids| ==> ids[i] < ids[j])
            && (forall i, k :: 0 <= i < |ids| && k in doc.list ==> doc.list[k].id < ids[i])
  {
    RunIssuesConsecutiveIds(doc, ops);
    var ids := Issued(Run(doc, ops).1);
    forall i | 0 <= i < |ids|
      ensures ids[i] == doc.increment + 1 + i
    {
      ConsecutiveAt(doc.increment + 1, Creates(ops), i);
    }
  }

  /** Starting from the empty document the n-th create gets ID n. */
  lemma FromEmptyIdsCountFromOne(ops: seq<Op>, n: nat)
    requires Creates(ops) <= MaxInt && 1 <= n <= Creates(ops)
    ensures var ids := Issued(Run(EmptyStore, ops).1);
            |ids| == Creates(ops) && ids[n - 1] == n
  {
    RunIssuesConsecutiveIds(EmptyStore, ops);
    ConsecutiveAt(1, Creates(ops), n - 1);
  }

  /** A run keeps the document valid, given a clock that does not go backwards and room in the counter for its creates. */
  lemma {:induction false} RunKeepsValid(doc: UserStore, ops: seq<Op>, t: int)
    requires Valid(doc) && CreatedBy(doc, t) && Clocked(ops, t)
    requires doc.increment + Creates(ops) <= MaxInt
    ensures Valid(Run(doc, ops).0)
    decreases |ops|
  {
    if ops != [] {
      var next := Step(doc, ops[0]).0;
      var t' := Time(ops[0], t);
      assert CreatedBy(doc, t');
      match ops[0] {
        case CreateOp(req, now) =>
          CreateKeepsValid(doc, req, now);
        case GetOp(_) =>
        case UpdateOp(id, name, now) =>
          if id in doc.list {
            UpdateKeepsValid(doc, id, name, now);
          }
        case DeleteOp(id) =>
          DeleteKeepsValid(doc, id, t');
      }
      assert next.increment + Creates(ops[1..]) <= MaxInt;
      RunKeepsValid(next, ops[1..], t');
    }
  }

  /** Creates only: every create adds one record, so k creates from the empty document leave k records and counter k. */
  lemma {:induction false} CreatesOnlyGrowList(doc: UserStore, ops: seq<Op>)
    requires Valid(doc) && doc.increment + |ops| <= MaxInt
    requires forall i :: 0 <= i < |ops| ==> ops[i].CreateOp?
    ensures |Run(doc, ops).0.list| == |doc.list| + |ops|
    ensures Run(doc, ops).0.increment == doc.increment + |ops|
    decreases |ops|
  {
    if ops != [] {
      var req, now := ops[0].req, ops[0].now;
      CreateKeepsOthers(doc, req, now);
      CreateKeepsValid(doc, req, now);
      CreatesOnlyGrowList(WithNewUser(doc, req, now), ops[1..]);
    }
  }

  /**
   * With a disk that never faults and holds `doc`, each store operation
   * returns what `Step` replies and writes what `Step` leaves (a lookup, and an
   * update or delete of a missing record, write nothing new).
   */
  lemma FaultFreeStoreFollowsStep(doc: UserStore, op: Op)
    ensures var (after, reply) := Step(doc, op);
            var file := Some(Marshal(doc));
            match op
            case CreateOp(req, now) =>
              CreateEffect(file, NoFaults, req, now) == Effect(Ok(reply.user), Some(Marshal(after)))
            case GetOp(id) =>
              GetEffect(file, NoFaults, id) ==
                (if reply.NotFound? then Effect(Err(UserNotFound), file) else Effect(Ok(reply.user), file))
            case UpdateOp(id, name, now) =>
              UpdateEffect(file, NoFaults, id, name, now) ==
                (if reply.NotFound? then Effect(Err(UserNotFound), file) else Effect(Ok(reply.user), Some(Marshal(after))))
            case DeleteOp(id) =>
              DeleteEffect(file, NoFaults, id) ==
                (if reply.NotFound? then Effect(Err(UserNotFound), file) else Effect(Ok(()), Some(Marshal(after))))
  {
  }
}
