/** The locking discipline of StringArray: which calls each operation makes
    on its `sync.RWMutex`, and what Go's RWMutex does with them when a single
    goroutine drives the array. In Remove the source takes the write lock and
    then releases a read lock, which Go's runtime treats as a fatal error; the
    corrected protocol releases the write lock it took. */
module RWMutex {

  /** The mutex seen by one goroutine: whether the write lock is held and how
      many read locks are held. */
  datatype State = State(writer: bool, readers: nat)

  const Unlocked := State(false, 0)

  datatype Call = Lock | Unlock | RLock | RUnlock

  /** What a call does: the new state, a fatal runtime error (which ends the
      whole process and cannot be recovered), or a wait that no other
      goroutine will ever end. */
  datatype Outcome = Held(state: State) | Fatal(reason: string) | Deadlock

  function Step(m: State, c: Call): (o: Outcome)
    ensures o.Fatal? <==> (c == Unlock && !m.writer) || (c == RUnlock && m.readers == 0)
  {
    match c
    case Lock => if m.writer || m.readers > 0 then Deadlock else Held(State(true, 0))
    case Unlock =>
      if !m.writer then Fatal("sync: Unlock of unlocked RWMutex")
      else Held(State(false, m.readers))
    case RLock => if m.writer then Deadlock else Held(State(false, m.readers + 1))
    case RUnlock =>
      if m.readers == 0 then Fatal("sync: RUnlock of unlocked RWMutex")
      else Held(State(m.writer, m.readers - 1))
  }

  /** The calls in order, stopping at the first that does not return. */
  function Run(m: State, cs: seq<Call>): Outcome
    decreases |cs|
  {
    if cs == [] then Held(m)
    else match Step(m, cs[0])
      case Held(m') => Run(m', cs[1..])
      case other => other
  }

  /** Running two call sequences one after the other. */
  lemma {:induction false} RunConcat(m: State, p: seq<Call>, q: seq<Call>)
    ensures Run(m, p + q) == match Run(m, p) case Held(m') => Run(m', q) case other => other
    decreases |p|
  {
    if p == [] {
      assert p + q == q;
    } else {
      assert (p + q)[0] == p[0];
      assert (p + q)[1..] == p[1..] + q;
      match Step(m, p[0])
      case Held(m') => RunConcat(m', p[1..], q);
      case other =>
    }
  }

  datatype Operation =
    | Get | Set | Insert | Remove | Append | Len | Slice | Clear | LockFunc | RLockFunc

  datatype Version = AsWritten | Corrected

  /** The operations that change the array and so take the write lock. */
  predicate Writes(op: Operation)
  {
    op in {Set, Insert, Remove, Append, Clear, LockFunc}
  }

  /** A release that undoes the acquire before it. */
  predicate Matched(acquire: Call, release: Call)
  {
    (acquire == Lock && release == Unlock) || (acquire == RLock && release == RUnlock)
  }

  /** The mutex calls each operation makes: one acquire, then one release.
      This is the path without a panic: no operation defers its release, so an
      out-of-range index panics with the lock still held, and bounds are the
      caller's obligation here as in GArray. The callbacks of LockFunc and
      RLockFunc are assumed not to touch the mutex themselves. */
  function Protocol(v: Version, op: Operation): (cs: seq<Call>)
    ensures |cs| == 2
    ensures cs[0] == if Writes(op) then Lock else RLock
    ensures Matched(cs[0], cs[1]) <==> !(v == AsWritten && op == Remove)
  {
    match op
    case Get | Len | Slice | RLockFunc => [RLock, RUnlock]
    case Set | Insert | Append | Clear | LockFunc => [Lock, Unlock]
    case Remove => if v == AsWritten then [Lock, RUnlock] else [Lock, Unlock]
  }

  /** The mutex calls of a sequence of operations made by one goroutine. */
  function Session(v: Version, ops: seq<Operation>): seq<Call>
  {
    if ops == [] then [] else Protocol(v, ops[0]) + Session(v, ops[1..])
  }

  /** The calls of two sessions one after the other are those of the joined
      session. */
  lemma {:induction false} SessionConcat(v: Version, a: seq<Operation>, b: seq<Operation>)
    ensures Session(v, a + b) == Session(v, a) + Session(v, b)
  {
    if a == [] {
      assert a + b == b;
    } else {
      assert (a + b)[0] == a[0];
      assert (a + b)[1..] == a[1..] + b;
      SessionConcat(v, a[1..], b);
    }
  }

  /** As written, Remove dies in its own unlock. */
  lemma RemoveAsWrittenIsFatal()
    ensures Run(Unlocked, Protocol(AsWritten, Remove)) == Fatal("sync: RUnlock of unlocked RWMutex")
  {
  }

  /** With Remove corrected, every session leaves the mutex unlocked. */
  lemma {:induction false} CorrectedSessionBalanced(ops: seq<Operation>)
    ensures Run(Unlocked, Session(Corrected, ops)) == Held(Unlocked)
  {
    if ops != [] {
      RunConcat(Unlocked, Protocol(Corrected, ops[0]), Session(Corrected, ops[1..]));
      CorrectedSessionBalanced(ops[1..]);
    }
  }

  /** As written, a session survives exactly when it never calls Remove, and
      then leaves the mutex unlocked; otherwise the first Remove is fatal. */
  lemma {:induction false} AsWrittenSessionSurvives(ops: seq<Operation>)
    ensures Run(Unlocked, Session(AsWritten, ops)).Held? <==> Remove !in ops
    ensures Remove !in ops ==> Run(Unlocked, Session(AsWritten, ops)) == Held(Unlocked)
    ensures Remove in ops ==>
      Run(Unlocked, Session(AsWritten, ops)) == Fatal("sync: RUnlock of unlocked RWMutex")
  {
    if ops != [] {
      RunConcat(Unlocked, Protocol(AsWritten, ops[0]), Session(AsWritten, ops[1..]));
      AsWrittenSessionSurvives(ops[1..]);
      assert Remove in ops <==> ops[0] == Remove || Remove in ops[1..];
    }
  }
}
