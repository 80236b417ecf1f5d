/** Creating the one admin account: check, hash (an await), then re-check and insert in one transaction. */
module Admin {
  import opened Wrappers

  datatype Row = Row(id: int, email: string, passwordHash: string, createdAt: int)

  datatype Problem = EmailInvalid | PasswordTooShort | AdminExists | HashFailed

  /** How far one call of `createAdmin` has come. */
  datatype Progress = Hashing(email: string, createdAt: int) | Created(id: int) | Failed(problem: Problem)

  datatype State = State(rows: seq<Row>, calls: seq<Progress>, nextId: int)

  /** `problem` is what validating the input found; validation itself is the email schema and a length. */
  datatype Event =
    | Begin(email: string, problem: Option<Problem>, now: int)
    | Commit(call: nat, passwordHash: string)
    | HashThrows(call: nat)

  predicate ValidationOnly(problem: Option<Problem>) {
    problem.Some? ==> problem.value == EmailInvalid || problem.value == PasswordTooShort
  }

  predicate Enabled(s: State, e: Event) {
    match e
    case Begin(_, problem, _) => ValidationOnly(problem)
    case Commit(call, _) => call < |s.calls| && s.calls[call].Hashing?
    case HashThrows(call) => call < |s.calls| && s.calls[call].Hashing?
  }

  function Next(s: State, e: Event): State
    requires Enabled(s, e)
  {
    match e
    case Begin(email, problem, now) =>
      s.(calls := s.calls + [
        if problem.Some? then Failed(problem.value)
        else if s.rows != [] then Failed(AdminExists)
        else Hashing(email, now)])
    case Commit(call, passwordHash) =>
      if s.rows != [] then s.(calls := s.calls[call := Failed(AdminExists)])
      else s.(rows := [Row(s.nextId, s.calls[call].email, passwordHash, s.calls[call].createdAt)],
              calls := s.calls[call := Created(s.nextId)], nextId := s.nextId + 1)
    case HashThrows(call) => s.(calls := s.calls[call := Failed(HashFailed)])
  }

  class AdminTable {
    var rows: seq<Row>
    var nextId: int
    /** The calls in flight or finished: what the runtime keeps of each suspended function. */
    var calls: seq<Progress>

    function Model(): State
      reads this
    {
      State(rows, calls, nextId)
    }

    constructor ()
      ensures Model() == State([], [], 1)
    {
      rows, calls, nextId := [], [], 1;
    }

    method HasAdmin() returns (exists_: bool)
      ensures exists_ <==> rows != []
    {
      exists_ := |rows| > 0;
    }

    /** Up to the await of the hash. */
    method CreateBegins(email: string, problem: Option<Problem>, now: int)
      requires ValidationOnly(problem)
      modifies this
      ensures rows == old(rows) && nextId == old(nextId)
      ensures calls == old(calls) + [
        match problem
        case Some(p) => Failed(p)
        case None => if rows == [] then Hashing(email, now) else Failed(AdminExists)]
      ensures Model() == Next(old(Model()), Begin(email, problem, now))
    {
      if problem.Some? {
        calls := calls + [Failed(problem.value)];
        return;
      }
      var taken := HasAdmin();
      if taken {
        calls := calls + [Failed(AdminExists)];
        return;
      }
      calls := calls + [Hashing(email, now)];
    }

    /** The transaction after the await; it runs without yielding. */
    method CreateCommits(call: nat, passwordHash: string)
      requires Enabled(Model(), Commit(call, passwordHash))
      modifies this
      ensures old(rows) != [] ==> rows == old(rows) && calls == old(calls)[call := Failed(AdminExists)]
      ensures old(rows) == [] ==>
        && calls == old(calls)[call := Created(old(nextId))]
        && rows == [Row(old(nextId), old(calls)[call].email, passwordHash, old(calls)[call].createdAt)]
      ensures Model() == Next(old(Model()), Commit(call, passwordHash))
    {
      var taken := HasAdmin();
      if taken {
        calls := calls[call := Failed(AdminExists)];
        return;
      }
      rows := rows + [Row(nextId, calls[call].email, passwordHash, calls[call].createdAt)];
      calls := calls[call := Created(nextId)];
      nextId := nextId + 1;
    }
  }

  ghost predicate IsRun(states: seq<State>, events: seq<Event>) {
    && |states| == |events| + 1
    && |states[0].rows| <= 1 && states[0].calls == []
    && forall i {:trigger events[i]} :: 0 <= i < |events| ==>
         Enabled(states[i], events[i]) && states[i + 1] == Next(states[i], events[i])
  }

  /** A call that got past validation and whose hash did not throw. */
  predicate Counts(p: Progress) {
    p.Created? || (p.Failed? && p.problem == AdminExists)
  }

  /** Successes against rows: one created call when the row came from this run, none when it was there before. */
  predicate Inv(s: State, before: bool) {
    && |s.rows| <= 1
    && (before ==> s.rows != [] && forall i :: 0 <= i < |s.calls| ==> !s.calls[i].Created?)
    && (!before && s.rows != [] ==>
          exists w :: 0 <= w < |s.calls| && s.calls[w] == Created(s.rows[0].id))
    && (!before && s.rows == [] ==> forall i :: 0 <= i < |s.calls| ==> !Counts(s.calls[i]))
    && (forall i, j :: 0 <= i < |s.calls| && 0 <= j < |s.calls| && s.calls[i].Created? && s.calls[j].Created? ==> i == j)
  }

  /** A winner stays one: no step touches a created call, or the row. */
  lemma WinnerStays(s: State, e: Event)
    requires Enabled(s, e) && s.rows != []
    ensures Next(s, e).rows == s.rows && |s.calls| <= |Next(s, e).calls|
    ensures forall i :: 0 <= i < |s.calls| && s.calls[i].Created? ==> Next(s, e).calls[i] == s.calls[i]
    ensures forall i :: 0 <= i < |Next(s, e).calls| && Next(s, e).calls[i].Created? ==>
      i < |s.calls| && s.calls[i] == Next(s, e).calls[i]
  {}

  lemma InvAfterWinner(s: State, e: Event, before: bool)
    requires Inv(s, before) && Enabled(s, e) && s.rows != []
    ensures Inv(Next(s, e), before)
  {
    var s' := Next(s, e);
    WinnerStays(s, e);
    hide Next;
    if !before {
      var w :| 0 <= w < |s.calls| && s.calls[w] == Created(s.rows[0].id);
      assert s'.calls[w] == Created(s'.rows[0].id);
    }
  }

  lemma InvAtCommit(s: State, e: Event)
    requires Inv(s, false) && Enabled(s, e) && s.rows == [] && e.Commit?
    ensures Inv(Next(s, e), false)
  {
    var s' := Next(s, e);
    assert s'.calls[e.call] == Created(s'.rows[0].id);
    assert forall i :: 0 <= i < |s.calls| && i != e.call ==> s'.calls[i] == s.calls[i] && !Counts(s.calls[i]);
  }

  lemma InvKept(s: State, e: Event, before: bool)
    requires Inv(s, before) && Enabled(s, e)
    ensures Inv(Next(s, e), before)
  {
    if s.rows != [] {
      InvAfterWinner(s, e, before);
    } else if e.Commit? {
      InvAtCommit(s, e);
    }
  }

  lemma {:induction false} InvHolds(states: seq<State>, events: seq<Event>, n: nat)
    requires IsRun(states, events) && n < |states|
    ensures Inv(states[n], states[0].rows != [])
  {
    if n > 0 {
      InvHolds(states, events, n - 1);
      InvKept(states[n - 1], events[n - 1], states[0].rows != []);
    }
  }

  // ---- Which call is whose ----

  /** How many of the first n events begin a call; the next call to begin is numbered by it. */
  function Begun(events: seq<Event>, n: nat): nat
    requires n <= |events|
  {
    if n == 0 then 0 else Begun(events, n - 1) + (if events[n - 1].Begin? then 1 else 0)
  }

  lemma {:induction false} CallsAreBegun(states: seq<State>, events: seq<Event>, n: nat)
    requires IsRun(states, events) && n <= |events|
    ensures |states[n].calls| == Begun(events, n)
  {
    if n > 0 {
      CallsAreBegun(states, events, n - 1);
      assert Enabled(states[n - 1], events[n - 1]);
    }
  }

  /** What a call that event e began can have come to; one with a problem fails with it and stays so. */
  predicate Follows(e: Event, p: Progress) {
    && e.Begin?
    && (e.problem.Some? ==> p == Failed(e.problem.value))
    && (e.problem.None? ==>
          || p == Hashing(e.email, e.now) || p.Created? || p == Failed(AdminExists) || p == Failed(HashFailed))
  }

  lemma CallFollows(s: State, e: Event, k: nat, begin: Event)
    requires Enabled(s, e) && k < |s.calls| && Follows(begin, s.calls[k])
    ensures k < |Next(s, e).calls| && Follows(begin, Next(s, e).calls[k])
  {}

  /**
   * Each call is that of one event: it fails with the problem its input had, if it had one; otherwise it waits with
   * the event's own email and time, unless there already is an admin, and then comes to one of the three ends.
   */
  lemma {:induction false} CallsFollowTheirBegin(states: seq<State>, events: seq<Event>, j: nat, n: nat)
    requires IsRun(states, events) && j < n <= |events| && events[j].Begin?
    ensures Begun(events, j) < |states[n].calls| && Follows(events[j], states[n].calls[Begun(events, j)])
    ensures n == j + 1 && events[j].problem.None? ==>
      states[n].calls[Begun(events, j)]
        == if states[j].rows == [] then Hashing(events[j].email, events[j].now) else Failed(AdminExists)
    decreases n
  {
    CallsAreBegun(states, events, j);
    assert Enabled(states[n - 1], events[n - 1]) && states[n] == Next(states[n - 1], events[n - 1]);
    if n > j + 1 {
      CallsFollowTheirBegin(states, events, j, n - 1);
      CallFollows(states[n - 1], events[n - 1], Begun(events, j), events[j]);
    }
  }

  lemma {:induction false} BegunBy(events: seq<Event>, n: nat, k: nat) returns (j: nat)
    requires n <= |events| && k < Begun(events, n)
    ensures j < n && events[j].Begin? && Begun(events, j) == k
  {
    if k < Begun(events, n - 1) {
      j := BegunBy(events, n - 1, k);
    } else {
      j := n - 1;
    }
  }

  /** The k-th call was begun by the event at j, with input that had no problem. */
  predicate BegunValid(events: seq<Event>, n: nat, k: nat, j: nat) {
    j < n <= |events| && events[j].Begin? && events[j].problem.None? && Begun(events, j) == k
  }

  lemma DecidedIsValid(states: seq<State>, events: seq<Event>, n: nat, k: nat) returns (j: nat)
    requires IsRun(states, events) && n <= |events| && k < |states[n].calls|
    requires Counts(states[n].calls[k]) || states[n].calls[k].Hashing?
    requires forall i :: 0 <= i < |events| && events[i].Begin? ==> ValidationOnly(events[i].problem)
    ensures BegunValid(events, n, k, j)
    ensures states[n].calls[k].Hashing? ==> states[n].calls[k] == Hashing(events[j].email, events[j].now)
  {
    CallsAreBegun(states, events, n);
    j := BegunBy(events, n, k);
    CallsFollowTheirBegin(states, events, j, n);
  }

  lemma ProblemsAreValidation(states: seq<State>, events: seq<Event>)
    requires IsRun(states, events)
    ensures forall i :: 0 <= i < |events| && events[i].Begin? ==> ValidationOnly(events[i].problem)
  {
    forall i | 0 <= i < |events| && events[i].Begin? ensures ValidationOnly(events[i].problem) {
      assert Enabled(states[i], events[i]);
    }
  }

  /** No call whose input had a problem is ever decided: it has failed, and is never Created. */
  ghost predicate OnlyValidDecided(events: seq<Event>, s: State, n: nat) {
    n <= |events|
    && forall k :: 0 <= k < |s.calls| && Counts(s.calls[k]) ==> exists j: nat :: BegunValid(events, n, k, j)
  }

  /**
   * However the calls interleave, there is at most one admin. From an empty table, as soon as one valid call
   * has been decided there is exactly one winner, and every other decided valid call ended in AdminExists;
   * from a table with an admin nobody wins. Only calls begun without a problem are ever decided.
   */
  lemma AtMostOneAdmin(states: seq<State>, events: seq<Event>, n: nat)
    requires IsRun(states, events) && n < |states|
    ensures var s := states[n];
      && |s.rows| <= 1
      && (states[0].rows == [] && (exists i :: 0 <= i < |s.calls| && Counts(s.calls[i])) ==>
            |s.rows| == 1
            && exists w :: 0 <= w < |s.calls| && s.calls[w] == Created(s.rows[0].id)
                 && forall i :: 0 <= i < |s.calls| && i != w && Counts(s.calls[i]) ==> s.calls[i] == Failed(AdminExists))
      && (states[0].rows != [] ==> forall i :: 0 <= i < |s.calls| ==> !s.calls[i].Created?)
      && OnlyValidDecided(events, s, n)
  {
    InvHolds(states, events, n);
    ProblemsAreValidation(states, events);
    forall k: nat | k < |states[n].calls| && Counts(states[n].calls[k]) ensures exists j: nat :: BegunValid(events, n, k, j) {
      var j := DecidedIsValid(states, events, n, k);
    }
  }

  /**
   * From an empty table a transaction creates the row exactly when no valid call has been decided before it. The row
   * then bears the email and the time that call was begun with, at j, without a problem, and the hash of this commit;
   * any other transaction ends in AdminExists and changes nothing.
   */
  lemma FirstCommitWins(states: seq<State>, events: seq<Event>, n: nat) returns (j: nat)
    requires IsRun(states, events) && states[0].rows == [] && n < |events| && events[n].Commit?
    ensures BegunValid(events, n, events[n].call, j)
    ensures var s, s', call := states[n], states[n + 1], events[n].call;
      && (s'.calls[call].Created? <==> forall i :: 0 <= i < |s.calls| ==> !Counts(s.calls[i]))
      && (s'.calls[call].Created? ==>
            s'.rows == [Row(s'.calls[call].id, events[j].email, events[n].passwordHash, events[j].now)])
      && (!s'.calls[call].Created? ==> s'.rows == s.rows && s'.calls[call] == Failed(AdminExists))
  {
    InvHolds(states, events, n);
    NobodyDecidedIffEmpty(states[n]);
    ProblemsAreValidation(states, events);
    assert Enabled(states[n], events[n]) && states[n + 1] == Next(states[n], events[n]);
    j := DecidedIsValid(states, events, n, events[n].call);
  }

  /** Only a commit writes the table; a hash that throws fails its call and nothing else. */
  lemma OnlyCommitsWrite(states: seq<State>, events: seq<Event>, n: nat)
    requires IsRun(states, events) && n < |events| && !events[n].Commit?
    ensures states[n + 1].rows == states[n].rows
    ensures events[n].HashThrows? ==>
      && events[n].call < |states[n].calls|
      && states[n + 1].calls == states[n].calls[events[n].call := Failed(HashFailed)]
  {
    assert Enabled(states[n], events[n]);
  }

  lemma NobodyDecidedIffEmpty(s: State)
    requires Inv(s, false)
    ensures s.rows == [] <==> forall i :: 0 <= i < |s.calls| ==> !Counts(s.calls[i])
  {
    if s.rows != [] {
      var w :| 0 <= w < |s.calls| && s.calls[w] == Created(s.rows[0].id);
      assert Counts(s.calls[w]);
    }
  }
}
