/**
 * Sessions: rows that roll forward on use, expire, and are purged, deleted lazily, deleted and revoked; and
 * the reference that remembers, per token, only when it was minted, last used and removed.
 */
module Sessions {
  import opened Wrappers

  datatype Audience = Web | Api

  type Id = string
  type Token = string

  const HOUR: int := 60 * 60 * 1000
  const DAY: int := 24 * HOUR

  function RollingTtl(a: Audience): int {
    match a case Web => 12 * HOUR case Api => 30 * DAY
  }

  function AbsoluteTtl(a: Audience): int {
    match a case Web => 30 * DAY case Api => 90 * DAY
  }

  datatype Row = Row(adminUserId: int, expiresAt: int, createdAt: int, audience: Audience, lastUsedAt: Option<int>)

  type Table = map<Id, Row>

  /** The keyed hash tokens are stored under; no two tokens are assumed to share one. */
  ghost predicate Injective(hash: Token -> Id) {
    forall a, b :: hash(a) == hash(b) ==> a == b
  }

  function Purged(rows: Table, now: int): Table {
    map id | id in rows && rows[id].expiresAt > now :: rows[id]
  }

  function Expired(row: Row, now: int): bool {
    row.expiresAt <= now || row.createdAt + AbsoluteTtl(row.audience) <= now
  }

  function Accepted(rows: Table, id: Id, now: int, audience: Audience): Option<int> {
    if id in rows && rows[id].audience == audience && !Expired(rows[id], now) then Some(rows[id].adminUserId) else None
  }

  function AfterCreate(rows: Table, id: Id, user: int, now: int, audience: Audience): Table {
    Purged(rows, now)[id := Row(user, now + RollingTtl(audience), now, audience, None)]
  }

  function AfterValidate(rows: Table, id: Id, now: int, audience: Audience): Table {
    if id !in rows || rows[id].audience != audience then rows
    else if Expired(rows[id], now) then rows - {id}
    else rows[id := rows[id].(expiresAt := now + RollingTtl(audience), lastUsedAt := Some(now))]
  }

  /** The row of a token, when it was minted for the audience it is presented to. */
  function Presented(rows: Table, id: Id, audience: Audience): Option<Row> {
    if id in rows && rows[id].audience == audience then Some(rows[id]) else None
  }

  class SessionStore {
    const hash: Token -> Id
    const publicIdOf: Id -> string
    var rows: Table

    constructor (hash: Token -> Id, publicIdOf: Id -> string)
      ensures this.hash == hash && this.publicIdOf == publicIdOf && rows == map[]
    {
      this.hash, this.publicIdOf, rows := hash, publicIdOf, map[];
    }

    /** `token` is the random one the source draws; a primary key that exists already would make the insert fail. */
    method CreateSession(user: int, token: Token, now: int, audience: Audience)
      modifies this
      ensures forall id :: id != hash(token) ==> (id in rows <==> id in old(rows) && old(rows)[id].expiresAt > now)
      ensures forall id :: id in rows && id != hash(token) ==> rows[id] == old(rows)[id]
      ensures hash(token) in rows
      ensures rows[hash(token)] == Row(user, now + IdleLimit(audience), now, audience, None)
      ensures rows == AfterCreate(old(rows), hash(token), user, now, audience)
    {
      rows := map id | id in rows && rows[id].expiresAt > now :: rows[id];
      rows := rows[hash(token) := Row(user, now + RollingTtl(audience), now, audience, None)];
    }

    method ValidateSession(token: Token, now: int, audience: Audience) returns (user: Option<int>)
      modifies this
      ensures Presented(old(rows), hash(token), audience).None? ==> user == None && rows == old(rows)
      ensures Presented(old(rows), hash(token), audience).Some? ==>
        var row := Presented(old(rows), hash(token), audience).value;
        if row.expiresAt <= now || now - row.createdAt >= AgeLimit(audience)
        then user == None && rows == old(rows) - {hash(token)}
        else
          && user == Some(row.adminUserId)
          && rows == old(rows)[hash(token) := row.(expiresAt := now + IdleLimit(audience), lastUsedAt := Some(now))]
      ensures user == Accepted(old(rows), hash(token), now, audience)
      ensures rows == AfterValidate(old(rows), hash(token), now, audience)
    {
      var id := hash(token);
      if id !in rows || rows[id].audience != audience {
        return None;
      }
      var row := rows[id];
      if row.expiresAt <= now || row.createdAt + AbsoluteTtl(audience) <= now {
        rows := rows - {id};
        return None;
      }
      rows := rows[id := row.(expiresAt := now + RollingTtl(audience), lastUsedAt := Some(now))];
      return Some(row.adminUserId);
    }

    method DeleteSession(token: Token)
      modifies this
      ensures rows == old(rows) - {hash(token)}
    {
      rows := rows - {hash(token)};
    }

    /** Which row is found first when several of a user's share a public id is up to the database. */
    method RevokeSession(user: int, publicId: string) returns (removed: Option<Id>)
      modifies this
      ensures Revocable(old(rows), publicIdOf, user, publicId, removed)
      ensures rows == if removed.Some? then old(rows) - {removed.value} else old(rows)
    {
      var candidates := set id | id in rows && rows[id].adminUserId == user && publicIdOf(id) == publicId;
      if candidates == {} {
        assert forall id :: id in rows && rows[id].adminUserId == user && publicIdOf(id) == publicId ==> id in candidates;
        return None;
      }
      var id :| id in candidates;
      rows := rows - {id};
      return Some(id);
    }
  }

  /** A row revocation may remove; none only when no row matches. */
  ghost predicate Revocable(rows: Table, publicIdOf: Id -> string, user: int, publicId: string, found: Option<Id>) {
    match found
    case None => forall id :: id in rows ==> rows[id].adminUserId != user || publicIdOf(id) != publicId
    case Some(id) => id in rows && rows[id].adminUserId == user && publicIdOf(id) == publicId
  }

  // ---- The reference ----

  /** All that is remembered of a session: it never expires here, it is only judged when asked about. */
  datatype Life = Life(
    user: int, audience: Audience, createdAt: int, lastUse: int, usedAt: Option<int>, removed: bool)

  datatype State = State(rows: Table, lives: map<Id, Life>, clock: int)

  datatype Call =
    | Create(user: int, token: Token, now: int, audience: Audience)
    | Validate(token: Token, now: int, audience: Audience)
    | Delete(token: Token)
    | Revoke(user: int, publicId: string, found: Option<Id>)

  /** A token is good for an audience at a time exactly by these five conditions. */
  predicate Good(lives: map<Id, Life>, id: Id, now: int, audience: Audience) {
    && id in lives
    && lives[id].audience == audience
    && !lives[id].removed
    && now < lives[id].createdAt + AbsoluteTtl(audience)
    && now < lives[id].lastUse + RollingTtl(audience)
  }

  function Removed(lives: map<Id, Life>, id: Id): map<Id, Life> {
    if id in lives then lives[id := lives[id].(removed := true)] else lives
  }

  /** The clock never goes back, and a freshly drawn token is one never drawn before. */
  ghost predicate Enabled(hash: Token -> Id, publicIdOf: Id -> string, s: State, call: Call) {
    match call
    case Create(_, token, now, _) => s.clock <= now && hash(token) !in s.lives
    case Validate(_, now, _) => s.clock <= now
    case Delete(_) => true
    case Revoke(user, publicId, found) => Revocable(s.rows, publicIdOf, user, publicId, found)
  }

  function Next(hash: Token -> Id, s: State, call: Call): State {
    match call
    case Create(user, token, now, audience) =>
      State(AfterCreate(s.rows, hash(token), user, now, audience),
            s.lives[hash(token) := Life(user, audience, now, now, None, false)], now)
    case Validate(token, now, audience) =>
      var id := hash(token);
      State(AfterValidate(s.rows, id, now, audience),
            if Good(s.lives, id, now, audience)
            then s.lives[id := s.lives[id].(lastUse := now, usedAt := Some(now))] else s.lives,
            now)
    case Delete(token) => s.(rows := s.rows - {hash(token)}, lives := Removed(s.lives, hash(token)))
    case Revoke(_, _, found) =>
      if found.Some? then s.(rows := s.rows - {found.value}, lives := Removed(s.lives, found.value)) else s
  }

  ghost predicate IsRun(hash: Token -> Id, publicIdOf: Id -> string, states: seq<State>, calls: seq<Call>) {
    && |states| == |calls| + 1
    && states[0].rows == map[] && states[0].lives == map[]
    && forall i {:trigger calls[i]} :: 0 <= i < |calls| ==>
         Enabled(hash, publicIdOf, states[i], calls[i]) && states[i + 1] == Next(hash, states[i], calls[i])
  }

  /** A session no later moment can revive. */
  predicate Over(life: Life, clock: int) {
    || life.removed
    || life.createdAt + AbsoluteTtl(life.audience) <= clock
    || life.lastUse + RollingTtl(life.audience) <= clock
  }

  /** The row, where there is one, says what the reference says; where there is none, the session is over. */
  predicate Matches(s: State, id: Id) {
    && (id in s.rows ==>
          && id in s.lives && !s.lives[id].removed
          && s.rows[id].adminUserId == s.lives[id].user
          && s.rows[id].audience == s.lives[id].audience
          && s.rows[id].createdAt == s.lives[id].createdAt
          && s.rows[id].lastUsedAt == s.lives[id].usedAt
          && s.rows[id].expiresAt == s.lives[id].lastUse + RollingTtl(s.lives[id].audience))
    && (id in s.lives && id !in s.rows ==> Over(s.lives[id], s.clock))
  }

  ghost predicate Inv(s: State) {
    forall id: Id :: Matches(s, id)
  }

  lemma InvKept(hash: Token -> Id, publicIdOf: Id -> string, s: State, call: Call)
    requires Inv(s) && Enabled(hash, publicIdOf, s, call)
    ensures Inv(Next(hash, s, call))
  {
    hide RollingTtl;
    var s' := Next(hash, s, call);
    forall id: Id ensures Matches(s', id) {
      assert Matches(s, id);
    }
  }

  lemma {:induction false} InvHolds(hash: Token -> Id, publicIdOf: Id -> string, states: seq<State>, calls: seq<Call>, n: nat)
    requires IsRun(hash, publicIdOf, states, calls) && n < |states|
    ensures Inv(states[n])
  {
    if n > 0 {
      InvHolds(hash, publicIdOf, states, calls, n - 1);
      InvKept(hash, publicIdOf, states[n - 1], calls[n - 1]);
    }
  }

  /**
   * A token validates exactly when it was minted for this audience, has not been removed, is younger than the
   * ceiling, and was last used (or created) less than a rolling window ago. The reference knows nothing of
   * purges, lazy deletions and presentations to the wrong audience, so none of those changes an answer.
   */
  lemma ValidatesExactly(
      hash: Token -> Id, publicIdOf: Id -> string, states: seq<State>, calls: seq<Call>, n: nat,
      token: Token, now: int, audience: Audience)
    requires IsRun(hash, publicIdOf, states, calls) && n < |states| && states[n].clock <= now
    ensures var s := states[n];
      Accepted(s.rows, hash(token), now, audience)
      == if Good(s.lives, hash(token), now, audience) then Some(s.lives[hash(token)].user) else None
  {
    InvHolds(hash, publicIdOf, states, calls, n);
    assert Matches(states[n], hash(token));
  }

  // ---- The reference, told by the calls and their answers ----

  /** The j-th call presented the token and was answered with its user. */
  predicate Uses(hash: Token -> Id, states: seq<State>, calls: seq<Call>, j: nat, token: Token) {
    && j < |calls| && j < |states| && calls[j].Validate? && calls[j].token == token
    && Accepted(states[j].rows, hash(token), calls[j].now, calls[j].audience).Some?
  }

  predicate Removes(hash: Token -> Id, call: Call, token: Token) {
    (call.Delete? && call.token == token) || (call.Revoke? && call.found == Some(hash(token)))
  }

  predicate RemovedSince(hash: Token -> Id, calls: seq<Call>, k: nat, n: nat, token: Token)
    requires n <= |calls|
  {
    exists j :: k < j < n && Removes(hash, calls[j], token)
  }

  /** Of the first n calls, the k-th minted the token, and the u-th is its last accepted use, or that same call. */
  predicate Story(hash: Token -> Id, states: seq<State>, calls: seq<Call>, n: nat, token: Token, k: nat, u: nat) {
    && k <= u < n <= |calls|
    && calls[k].Create? && calls[k].token == token
    && (u == k || Uses(hash, states, calls, u, token))
    && forall j :: u < j < n ==> !Uses(hash, states, calls, j, token)
  }

  function TimeOf(call: Call): int {
    match call
    case Create(_, _, now, _) => now
    case Validate(_, now, _) => now
    case _ => 0
  }

  predicate TellsLife(hash: Token -> Id, calls: seq<Call>, n: nat, token: Token, k: nat, u: nat, life: Life) {
    && k <= u < n <= |calls| && calls[k].Create?
    && life.user == calls[k].user && life.audience == calls[k].audience
    && life.createdAt == TimeOf(calls[k]) && life.lastUse == TimeOf(calls[u])
    && life.usedAt == (if u == k then None else Some(TimeOf(calls[u])))
    && (life.removed <==> RemovedSince(hash, calls, k, n, token))
  }

  lemma LifeStep(
      hash: Token -> Id, publicIdOf: Id -> string, states: seq<State>, calls: seq<Call>, n: nat, token: Token)
    requires IsRun(hash, publicIdOf, states, calls) && n < |calls| && Injective(hash) && hash(token) in states[n].lives
    ensures hash(token) in states[n + 1].lives && !(calls[n].Create? && calls[n].token == token)
    ensures states[n + 1].lives[hash(token)] == states[n].lives[hash(token)].(
      lastUse := if Uses(hash, states, calls, n, token) then TimeOf(calls[n]) else states[n].lives[hash(token)].lastUse,
      usedAt := if Uses(hash, states, calls, n, token) then Some(TimeOf(calls[n])) else states[n].lives[hash(token)].usedAt,
      removed := Removes(hash, calls[n], token) || states[n].lives[hash(token)].removed)
  {
    assert Enabled(hash, publicIdOf, states[n], calls[n]) && states[n + 1] == Next(hash, states[n], calls[n]);
    if calls[n].Validate? {
      ValidatesExactly(hash, publicIdOf, states, calls, n, calls[n].token, calls[n].now, calls[n].audience);
    }
  }

  lemma RemovedStep(hash: Token -> Id, calls: seq<Call>, k: nat, n: nat, token: Token)
    requires k < n < |calls|
    ensures RemovedSince(hash, calls, k, n + 1, token) <==> RemovedSince(hash, calls, k, n, token) || Removes(hash, calls[n], token)
  {
    if RemovedSince(hash, calls, k, n + 1, token) {
      var j :| k < j < n + 1 && Removes(hash, calls[j], token);
    }
    if Removes(hash, calls[n], token) {
      assert k < n < n + 1 && Removes(hash, calls[n], token);
    }
  }

  /**
   * What the reference knows of a token is what its calls say: its user, audience and creation are those of the call
   * that minted it, its last use is its last accepted validation (or its creation), and it is removed exactly when a
   * deletion or a revocation has named it since.
   */
  lemma {:induction false} LivesAreMinted(
      hash: Token -> Id, publicIdOf: Id -> string, states: seq<State>, calls: seq<Call>, n: nat, token: Token)
      returns (k: nat, u: nat)
    requires IsRun(hash, publicIdOf, states, calls) && n < |states|
    requires Injective(hash) && hash(token) in states[n].lives
    ensures Story(hash, states, calls, n, token, k, u)
    ensures TellsLife(hash, calls, n, token, k, u, states[n].lives[hash(token)])
  {
    assert n > 0;
    if hash(token) in states[n - 1].lives {
      k, u := LivesAreMinted(hash, publicIdOf, states, calls, n - 1, token);
      LifeStep(hash, publicIdOf, states, calls, n - 1, token);
      RemovedStep(hash, calls, k, n - 1, token);
      if Uses(hash, states, calls, n - 1, token) {
        u := n - 1;
      }
    } else {
      assert Enabled(hash, publicIdOf, states[n - 1], calls[n - 1]);
      assert states[n] == Next(hash, states[n - 1], calls[n - 1]);
      k, u := n - 1, n - 1;
    }
  }

  lemma {:induction false} MintedStays(
      hash: Token -> Id, publicIdOf: Id -> string, states: seq<State>, calls: seq<Call>, n: nat, token: Token, k: nat)
    requires IsRun(hash, publicIdOf, states, calls) && k < n < |states| && Injective(hash)
    requires calls[k].Create? && calls[k].token == token
    ensures hash(token) in states[n].lives
  {
    hide Removed, AfterCreate;
    if k == n - 1 {
      assert states[n] == Next(hash, states[n - 1], calls[n - 1]);
    } else {
      MintedStays(hash, publicIdOf, states, calls, n - 1, token, k);
      LifeStep(hash, publicIdOf, states, calls, n - 1, token);
    }
  }

  lemma MintedOnce(
      hash: Token -> Id, publicIdOf: Id -> string, states: seq<State>, calls: seq<Call>, token: Token, k: nat, l: nat)
    requires IsRun(hash, publicIdOf, states, calls) && k < l < |calls| && Injective(hash)
    requires calls[k].Create? && calls[k].token == token
    ensures !(calls[l].Create? && calls[l].token == token)
  {
    MintedStays(hash, publicIdOf, states, calls, l, token, k);
    LifeStep(hash, publicIdOf, states, calls, l, token);
  }

  lemma OneStory(
      hash: Token -> Id, publicIdOf: Id -> string, states: seq<State>, calls: seq<Call>, n: nat, token: Token,
      k: nat, u: nat, l: nat, v: nat)
    requires IsRun(hash, publicIdOf, states, calls) && n < |states| && Injective(hash)
    requires Story(hash, states, calls, n, token, k, u) && Story(hash, states, calls, n, token, l, v)
    ensures k == l && u == v
  {
    if k < l {
      MintedOnce(hash, publicIdOf, states, calls, token, k, l);
    } else if l < k {
      MintedOnce(hash, publicIdOf, states, calls, token, l, k);
    }
  }

  /** A browser session ends after 12 idle hours and 30 days at most, an API session after 30 idle days and 90 at most. */
  function IdleLimit(audience: Audience): int {
    if audience == Web then 43_200_000 else 2_592_000_000
  }

  function AgeLimit(audience: Audience): int {
    if audience == Web then 2_592_000_000 else 7_776_000_000
  }

  /** The story permits the token to be used at a time for an audience. */
  predicate Permits(hash: Token -> Id, calls: seq<Call>, n: nat, token: Token, k: nat, u: nat, now: int, audience: Audience) {
    && k <= u < n <= |calls| && calls[k].Create?
    && calls[k].audience == audience && !RemovedSince(hash, calls, k, n, token)
    && now - TimeOf(calls[k]) < AgeLimit(audience) && now - TimeOf(calls[u]) < IdleLimit(audience)
  }

  /**
   * The same in terms of calls and answers alone: a token validates, as the user some call minted it for, exactly when
   * that call was for this audience, none has removed it since, and both the ceiling from that call and the rolling
   * window from its last accepted use are still ahead.
   */
  lemma ValidatesByItsCalls(
      hash: Token -> Id, publicIdOf: Id -> string, states: seq<State>, calls: seq<Call>, n: nat,
      token: Token, now: int, audience: Audience, user: int)
    requires IsRun(hash, publicIdOf, states, calls) && n < |states| && states[n].clock <= now && Injective(hash)
    ensures Accepted(states[n].rows, hash(token), now, audience) == Some(user)
       <==> exists k: nat, u: nat ::
              && Story(hash, states, calls, n, token, k, u) && Permits(hash, calls, n, token, k, u, now, audience)
              && calls[k].user == user
  {
    hide Uses, RemovedSince, Accepted;
    ValidatesExactly(hash, publicIdOf, states, calls, n, token, now, audience);
    if hash(token) in states[n].lives {
      var k, u := LivesAreMinted(hash, publicIdOf, states, calls, n, token);
      forall l: nat, v: nat | Story(hash, states, calls, n, token, l, v) ensures l == k && v == u {
        OneStory(hash, publicIdOf, states, calls, n, token, k, u, l, v);
      }
    } else {
      forall l: nat, v: nat | Story(hash, states, calls, n, token, l, v) ensures false {
        MintedStays(hash, publicIdOf, states, calls, n, token, l);
      }
    }
  }

  /** A row says what the calls say: whose it is, when it was minted and last used, and until when it rolls. */
  lemma RowsTellTheirStory(
      hash: Token -> Id, publicIdOf: Id -> string, states: seq<State>, calls: seq<Call>, n: nat, token: Token)
      returns (k: nat, u: nat)
    requires IsRun(hash, publicIdOf, states, calls) && n < |states| && Injective(hash) && hash(token) in states[n].rows
    ensures Story(hash, states, calls, n, token, k, u) && !RemovedSince(hash, calls, k, n, token)
    ensures states[n].rows[hash(token)] == Row(
      calls[k].user, TimeOf(calls[u]) + IdleLimit(calls[k].audience), calls[k].now, calls[k].audience,
      if u == k then None else Some(calls[u].now))
  {
    hide Story, RemovedSince;
    InvHolds(hash, publicIdOf, states, calls, n);
    assert Matches(states[n], hash(token));
    k, u := LivesAreMinted(hash, publicIdOf, states, calls, n, token);
    StoryOpens(hash, states, calls, n, token, k, u);
  }

  lemma StoryOpens(hash: Token -> Id, states: seq<State>, calls: seq<Call>, n: nat, token: Token, k: nat, u: nat)
    requires Story(hash, states, calls, n, token, k, u)
    ensures k <= u < n <= |calls| && calls[k].Create? && (u == k || calls[u].Validate?)
  {}

  /** Revoking ends a session of the user who asks, under the id shown to that user, and no one else's. */
  lemma RevocationIsOwn(
      hash: Token -> Id, publicIdOf: Id -> string, states: seq<State>, calls: seq<Call>, n: nat, token: Token)
      returns (k: nat, u: nat)
    requires IsRun(hash, publicIdOf, states, calls) && n < |calls| && Injective(hash)
    requires calls[n].Revoke? && calls[n].found == Some(hash(token))
    ensures Story(hash, states, calls, n, token, k, u)
    ensures calls[k].user == calls[n].user && publicIdOf(hash(token)) == calls[n].publicId
    ensures hash(token) !in states[n + 1].rows
  {
    assert Enabled(hash, publicIdOf, states[n], calls[n]) && states[n + 1] == Next(hash, states[n], calls[n]);
    k, u := RowsTellTheirStory(hash, publicIdOf, states, calls, n, token);
  }

  /** And it finds nothing only when no session of that user that would still validate has that id. */
  lemma RevocationMissesNothing(
      hash: Token -> Id, publicIdOf: Id -> string, states: seq<State>, calls: seq<Call>, n: nat, token: Token, audience: Audience)
    requires IsRun(hash, publicIdOf, states, calls) && n < |calls| && Injective(hash)
    requires calls[n].Revoke? && calls[n].found == None && publicIdOf(hash(token)) == calls[n].publicId
    ensures Accepted(states[n].rows, hash(token), states[n].clock, audience) != Some(calls[n].user)
  {
    assert Enabled(hash, publicIdOf, states[n], calls[n]);
  }

  /** The call names the token: it presents it, or revokes its session. */
  predicate About(hash: Token -> Id, call: Call, token: Token) {
    if call.Revoke? then call.found == Some(hash(token)) else call.token == token
  }

  /** Calls about one token leave every other token's answers alone. */
  lemma TokensAreIndependent(hash: Token -> Id, s: State, call: Call, other: Token, now: int, audience: Audience)
    requires Injective(hash) && Inv(s) && !About(hash, call, other)
    requires now >= s.clock && (call.Create? || call.Validate? ==> s.clock <= call.now <= now)
    ensures Accepted(Next(hash, s, call).rows, hash(other), now, audience) == Accepted(s.rows, hash(other), now, audience)
  {
    assert !call.Revoke? ==> hash(call.token) != hash(other);
    assert Matches(s, hash(other));
  }
}
