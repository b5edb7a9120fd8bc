/** The views read back from the rows of consent_audit (db/queries.py). Rows are stamped in
    strictly increasing order. */
module ConsentLedger {
  import opened Text
  import J = Json
  import opened ConsentEvents

  // ------------------------------------------------------------------
  // Newest row first
  // ------------------------------------------------------------------

  /** WHERE keep ORDER BY issued_at DESC LIMIT 1 */
  function Newest(rows: seq<Row>, keep: Row -> bool): Option<Row> {
    if rows == [] then None
    else
      var n := |rows| - 1;
      var best := Newest(rows[..n], keep);
      if keep(rows[n]) && (best.None? || best.value.issuedAt <= rows[n].issuedAt) then Some(rows[n]) else best
  }

  lemma {:induction false} NewestIsLatest(rows: seq<Row>, keep: Row -> bool)
    ensures Newest(rows, keep).None? <==> forall r :: r in rows ==> !keep(r)
    ensures Newest(rows, keep).Some? ==>
              && Newest(rows, keep).value in rows && keep(Newest(rows, keep).value)
              && forall r :: r in rows && keep(r) ==> r.issuedAt <= Newest(rows, keep).value.issuedAt
  {
    if rows != [] {
      var n := |rows| - 1;
      assert rows == rows[..n] + [rows[n]];
      NewestIsLatest(rows[..n], keep);
    }
  }

  /** In a table stamped in order the newest matching row is the last one inserted. */
  lemma NewestInOrder(rows: seq<Row>, row: Row, keep: Row -> bool)
    requires Ordered(rows + [row])
    ensures Newest(rows + [row], keep) == if keep(row) then Some(row) else Newest(rows, keep)
  {
    assert (rows + [row])[..|rows|] == rows;
    NewestIsLatest(rows, keep);
    if Newest(rows, keep).Some? {
      var i :| 0 <= i < |rows| && rows[i] == Newest(rows, keep).value;
      assert (rows + [row])[i] == rows[i] && (rows + [row])[|rows|] == row;
    }
  }

  // ------------------------------------------------------------------
  // Active tokens
  // ------------------------------------------------------------------

  predicate Concerns(r: Row, userId: string, agentId: Option<string>, scope: Option<string>) {
    && r.userId == userId
    && (r.action == "CONSENT_GRANTED" || r.action == "REVOKED")
    && (agentId.None? || r.agentId == agentId.value)
    && (scope.None? || r.scope == scope.value)
  }

  predicate Live(r: Row, now: int) {
    r.action == "CONSENT_GRANTED" && (r.expiresAt.None? || r.expiresAt.value > now)
  }

  /** The row DISTINCT ON (agent_id, scope) keeps for the group of `r`. */
  function LatestOfGroup(rows: seq<Row>, userId: string, agentId: Option<string>, scope: Option<string>, r: Row)
    : Option<Row>
  {
    Newest(rows, (x: Row) => Concerns(x, userId, agentId, scope) && x.agentId == r.agentId && x.scope == r.scope)
  }

  /** get_active_tokens */
  function ActiveTokens(rows: seq<Row>, userId: string, agentId: Option<string>, scope: Option<string>, now: int)
    : set<Row>
  {
    set r | r in rows && Concerns(r, userId, agentId, scope)
            && LatestOfGroup(rows, userId, agentId, scope, r) == Some(r) && Live(r, now)
  }

  /** is_token_active */
  predicate IsTokenActive(rows: seq<Row>, userId: string, scope: string, agentId: Option<string>, now: int) {
    var newest := Newest(rows, (x: Row) => Concerns(x, userId, agentId, Some(scope)));
    newest.Some? && Live(newest.value, now)
  }

  /** The ledger as a state machine: a grant sets the entry of its agent and scope, a
      revocation clears it, any other event leaves the state alone. */
  function Replay(rows: seq<Row>, userId: string): map<(string, string), Row> {
    if rows == [] then map[]
    else
      var n := |rows| - 1;
      var state := Replay(rows[..n], userId);
      var r := rows[n];
      if r.userId != userId then state
      else if r.action == "CONSENT_GRANTED" then state[(r.agentId, r.scope) := r]
      else if r.action == "REVOKED" then state - {(r.agentId, r.scope)}
      else state
  }

  function GroupNewest(rows: seq<Row>, userId: string, key: (string, string)): Option<Row> {
    Newest(rows, (x: Row) => Concerns(x, userId, Some(key.0), Some(key.1)))
  }

  lemma {:induction false} NewestSame(rows: seq<Row>, f: Row -> bool, g: Row -> bool)
    requires forall r :: r in rows ==> (f(r) <==> g(r))
    ensures Newest(rows, f) == Newest(rows, g)
  {
    if rows != [] {
      var n := |rows| - 1;
      assert rows == rows[..n] + [rows[n]];
      NewestSame(rows[..n], f, g);
    }
  }

  /** The machine holds exactly the groups whose newest event is a grant, with that event. */
  lemma {:induction false} ReplayHolds(rows: seq<Row>, userId: string, key: (string, string))
    requires Ordered(rows)
    ensures key in Replay(rows, userId)
       <==> GroupNewest(rows, userId, key).Some? && GroupNewest(rows, userId, key).value.action == "CONSENT_GRANTED"
    ensures key in Replay(rows, userId) ==> GroupNewest(rows, userId, key) == Some(Replay(rows, userId)[key])
  {
    if rows != [] {
      var n := |rows| - 1;
      assert rows == rows[..n] + [rows[n]];
      ReplayHolds(rows[..n], userId, key);
      NewestInOrder(rows[..n], rows[n], (x: Row) => Concerns(x, userId, Some(key.0), Some(key.1)));
    }
  }

  lemma GroupIsNewest(rows: seq<Row>, userId: string, agentId: Option<string>, scope: Option<string>, r: Row)
    requires Concerns(r, userId, agentId, scope)
    ensures LatestOfGroup(rows, userId, agentId, scope, r) == GroupNewest(rows, userId, (r.agentId, r.scope))
  {
    NewestSame(rows,
      (x: Row) => Concerns(x, userId, agentId, scope) && x.agentId == r.agentId && x.scope == r.scope,
      (x: Row) => Concerns(x, userId, Some(r.agentId), Some(r.scope)));
  }

  /** Membership in get_active_tokens, whatever filters are given: the row passes them, is
      the newest grant or revocation of its agent and scope, and is live. */
  lemma ActiveTokensMeaning(rows: seq<Row>, userId: string, agentId: Option<string>, scope: Option<string>, now: int, r: Row)
    ensures r in ActiveTokens(rows, userId, agentId, scope, now)
       <==> r.userId == userId && (agentId.Some? ==> r.agentId == agentId.value) && (scope.Some? ==> r.scope == scope.value)
            && r.action == "CONSENT_GRANTED" && (r.expiresAt.Some? ==> now < r.expiresAt.value)
            && GroupNewest(rows, userId, (r.agentId, r.scope)) == Some(r)
  {
    NewestIsLatest(rows, (x: Row) => Concerns(x, userId, Some(r.agentId), Some(r.scope)));
    if Concerns(r, userId, agentId, scope) { GroupIsNewest(rows, userId, agentId, scope, r); }
  }

  /** In a log in order, the newest of some rows is one that no other of them comes after. */
  lemma NewestIs(rows: seq<Row>, keep: Row -> bool, r: Row)
    requires Ordered(rows)
    ensures Newest(rows, keep) == Some(r)
       <==> r in rows && keep(r) && forall q :: q in rows && keep(q) ==> q.issuedAt <= r.issuedAt
  {
    NewestIsLatest(rows, keep);
    if r in rows && keep(r) && (forall q :: q in rows && keep(q) ==> q.issuedAt <= r.issuedAt) {
      var q := Newest(rows, keep).value;
      SameStamp(rows, r, q);
    }
  }

  /** No grant or revocation of the user on the scope, by the agent if one is given, is newer. */
  ghost predicate NoneNewer(rows: seq<Row>, userId: string, agentId: Option<string>, scope: string, r: Row) {
    forall q :: q in rows && q.userId == userId && q.scope == scope && (agentId.Some? ==> q.agentId == agentId.value) ==>
      (q.action in {"CONSENT_GRANTED", "REVOKED"} ==> q.issuedAt <= r.issuedAt)
  }

  lemma NewestIsNoneNewer(rows: seq<Row>, userId: string, agentId: Option<string>, scope: string, r: Row)
    requires Ordered(rows)
    ensures Newest(rows, (x: Row) => Concerns(x, userId, agentId, Some(scope))) == Some(r)
       <==> r in rows && Concerns(r, userId, agentId, Some(scope)) && NoneNewer(rows, userId, agentId, scope, r)
  {
    var keep := (x: Row) => Concerns(x, userId, agentId, Some(scope));
    NewestIs(rows, keep, r);
    assert NoneNewer(rows, userId, agentId, scope, r) <==> forall q :: q in rows && keep(q) ==> q.issuedAt <= r.issuedAt;
  }

  /** Which tokens are active, from the log alone: the grants of the user, to the given agent and
      for the given scope if any is given, that have not expired, and after which no event has
      granted or revoked the same scope to the same agent. */
  lemma ActiveTokensExactly(rows: seq<Row>, userId: string, agentId: Option<string>, scope: Option<string>, now: int, r: Row)
    requires Ordered(rows)
    ensures r in ActiveTokens(rows, userId, agentId, scope, now)
       <==> && r in rows && r.userId == userId && r.action == "CONSENT_GRANTED"
            && (agentId.Some? ==> r.agentId == agentId.value) && (scope.Some? ==> r.scope == scope.value)
            && (r.expiresAt.Some? ==> now < r.expiresAt.value)
            && NoneNewer(rows, userId, Some(r.agentId), r.scope, r)
  {
    ActiveTokensMeaning(rows, userId, agentId, scope, now, r);
    NewestIsNoneNewer(rows, userId, Some(r.agentId), r.scope, r);
  }

  /** When the check holds, from the log alone: the last grant or revocation of the scope, by the
      agent if one is given, is a grant that has not expired. */
  lemma IsTokenActiveExactly(rows: seq<Row>, userId: string, scope: string, agentId: Option<string>, now: int)
    requires Ordered(rows)
    ensures IsTokenActive(rows, userId, scope, agentId, now)
       <==> exists r :: && r in rows && r.userId == userId && r.scope == scope && r.action == "CONSENT_GRANTED"
                        && (agentId.Some? ==> r.agentId == agentId.value)
                        && (r.expiresAt.Some? ==> now < r.expiresAt.value)
                        && NoneNewer(rows, userId, agentId, scope, r)
  {
    var newest := Newest(rows, (x: Row) => Concerns(x, userId, agentId, Some(scope)));
    if newest.Some? { NewestIsNoneNewer(rows, userId, agentId, scope, newest.value); }
    if r :| && r in rows && r.userId == userId && r.scope == scope && r.action == "CONSENT_GRANTED"
            && (agentId.Some? ==> r.agentId == agentId.value)
            && (r.expiresAt.Some? ==> now < r.expiresAt.value)
            && NoneNewer(rows, userId, agentId, scope, r) {
      NewestIsNoneNewer(rows, userId, agentId, scope, r);
    }
  }

  /** The query over the rows is the replayed state machine, its expired entries left out. */
  lemma ReplayIsActiveTokens(rows: seq<Row>, userId: string, now: int)
    requires Ordered(rows)
    ensures ActiveTokens(rows, userId, None, None, now)
         == set key | key in Replay(rows, userId)
                      && (Replay(rows, userId)[key].expiresAt.None? || now < Replay(rows, userId)[key].expiresAt.value)
              :: Replay(rows, userId)[key]
  {
    forall key | key in Replay(rows, userId) ensures Replay(rows, userId)[key].action == "CONSENT_GRANTED" {
      ReplayHolds(rows, userId, key);
    }
    ReplayIsLiveTokens(rows, userId, now);
    assert forall key :: key in Replay(rows, userId) ==>
      (Live(Replay(rows, userId)[key], now)
       <==> Replay(rows, userId)[key].expiresAt.None? || now < Replay(rows, userId)[key].expiresAt.value);
  }

  lemma ReplayIsLiveTokens(rows: seq<Row>, userId: string, now: int)
    requires Ordered(rows)
    ensures ActiveTokens(rows, userId, None, None, now)
         == set key | key in Replay(rows, userId) && Live(Replay(rows, userId)[key], now) :: Replay(rows, userId)[key]
  {
    var state := Replay(rows, userId);
    var live := set key | key in state && Live(state[key], now) :: state[key];
    forall r ensures r in ActiveTokens(rows, userId, None, None, now) <==> r in live {
      ActiveTokensMeaning(rows, userId, None, None, now, r);
      if r in ActiveTokens(rows, userId, None, None, now) {
        ReplayHolds(rows, userId, (r.agentId, r.scope));
      }
      if r in live {
        var key :| key in state && Live(state[key], now) && state[key] == r;
        ReplayHolds(rows, userId, key);
        NewestIsLatest(rows, (x: Row) => Concerns(x, userId, Some(key.0), Some(key.1)));
      }
    }
  }

  /** A query for one agent or one scope is the unfiltered one, filtered. */
  lemma FiltersCommute(rows: seq<Row>, userId: string, agentId: Option<string>, scope: Option<string>, now: int)
    ensures ActiveTokens(rows, userId, agentId, scope, now)
         == set r | r in ActiveTokens(rows, userId, None, None, now) && Concerns(r, userId, agentId, scope)
  {
    forall r ensures r in ActiveTokens(rows, userId, agentId, scope, now)
                <==> r in ActiveTokens(rows, userId, None, None, now) && Concerns(r, userId, agentId, scope) {
      ActiveTokensMeaning(rows, userId, agentId, scope, now, r);
      ActiveTokensMeaning(rows, userId, None, None, now, r);
    }
  }

  /** Asked about one agent, the check agrees with the list. */
  lemma ActiveWithAgent(rows: seq<Row>, userId: string, scope: string, agentId: string, now: int)
    ensures IsTokenActive(rows, userId, scope, Some(agentId), now)
       <==> ActiveTokens(rows, userId, Some(agentId), Some(scope), now) != {}
  {
    var newest := GroupNewest(rows, userId, (agentId, scope));
    NewestIsLatest(rows, (x: Row) => Concerns(x, userId, Some(agentId), Some(scope)));
    if newest.Some? {
      ActiveTokensMeaning(rows, userId, Some(agentId), Some(scope), now, newest.value);
    }
    if ActiveTokens(rows, userId, Some(agentId), Some(scope), now) != {} {
      var r :| r in ActiveTokens(rows, userId, Some(agentId), Some(scope), now);
      ActiveTokensMeaning(rows, userId, Some(agentId), Some(scope), now, r);
    }
  }

  /** The agent of the newest grant or revocation on a scope, whoever made it. */
  function LastAgent(rows: seq<Row>, userId: string, scope: string): Option<string> {
    match Newest(rows, (x: Row) => Concerns(x, userId, None, Some(scope)))
    case None => None
    case Some(r) => Some(r.agentId)
  }

  /** Asked about no agent in particular, the check looks at the last agent alone: it holds
      exactly when that agent's own token is active, so it implies a non-empty list, and it
      misses active tokens of the others once another agent's is revoked or expired. */
  lemma ActiveWithoutAgent(rows: seq<Row>, userId: string, scope: string, now: int)
    requires Ordered(rows)
    ensures IsTokenActive(rows, userId, scope, None, now)
       <==> LastAgent(rows, userId, scope).Some?
            && IsTokenActive(rows, userId, scope, LastAgent(rows, userId, scope), now)
    ensures IsTokenActive(rows, userId, scope, None, now) ==> ActiveTokens(rows, userId, None, Some(scope), now) != {}
  {
    var all := (x: Row) => Concerns(x, userId, None, Some(scope));
    NewestIsLatest(rows, all);
    if Newest(rows, all).Some? {
      var r := Newest(rows, all).value;
      var own := (x: Row) => Concerns(x, userId, Some(r.agentId), Some(scope));
      NewestIsLatest(rows, own);
      assert own(r);
      SameStamp(rows, r, Newest(rows, own).value);
      ActiveTokensMeaning(rows, userId, None, Some(scope), now, r);
    }
  }

  lemma SameStamp(rows: seq<Row>, r: Row, q: Row)
    requires Ordered(rows) && r in rows && q in rows && r.issuedAt == q.issuedAt
    ensures r == q
  {
    var i :| 0 <= i < |rows| && rows[i] == r;
    var j :| 0 <= j < |rows| && rows[j] == q;
  }

  /** The check without an agent agrees with the list on exactly those logs that list nothing
      for the scope, or list the token of the last agent. */
  lemma WhenChecksAgree(rows: seq<Row>, userId: string, scope: string, now: int)
    requires Ordered(rows)
    ensures (IsTokenActive(rows, userId, scope, None, now) <==> ActiveTokens(rows, userId, None, Some(scope), now) != {})
       <==> ActiveTokens(rows, userId, None, Some(scope), now) == {}
            || exists r :: r in ActiveTokens(rows, userId, None, Some(scope), now)
                           && LastAgent(rows, userId, scope) == Some(r.agentId)
  {
    ActiveWithoutAgent(rows, userId, scope, now);
    var listed := ActiveTokens(rows, userId, None, Some(scope), now);
    if LastAgent(rows, userId, scope).Some? {
      var agent := LastAgent(rows, userId, scope).value;
      ActiveWithAgent(rows, userId, scope, agent, now);
      FiltersCommute(rows, userId, Some(agent), Some(scope), now);
      FiltersCommute(rows, userId, None, Some(scope), now);
      var own := ActiveTokens(rows, userId, Some(agent), Some(scope), now);
      forall r ensures r in own <==> r in listed && r.agentId == agent {
      }
      if own != {} { var r :| r in own; assert r in listed; }
    } else if listed != {} {
      var r :| r in listed;
      NewestIsLatest(rows, (x: Row) => Concerns(x, userId, None, Some(scope)));
      assert false;
    }
  }

  /** Whenever one agent's live grant is followed by another agent's revocation on the same
      scope, the list shows the grant and the check without an agent says there is none. */
  lemma ActiveWithoutAgentMisses(granted: Row, revoked: Row, now: int)
    requires Live(granted, now) && revoked.action == "REVOKED" && granted.issuedAt < revoked.issuedAt
    requires granted.userId == revoked.userId && granted.scope == revoked.scope && granted.agentId != revoked.agentId
    ensures granted in ActiveTokens([granted] + [revoked], granted.userId, None, Some(granted.scope), now)
    ensures !IsTokenActive([granted] + [revoked], granted.userId, granted.scope, None, now)
  {
    var u, s := granted.userId, granted.scope;
    assert Ordered([granted] + [revoked]);
    var own := (x: Row) => Concerns(x, u, Some(granted.agentId), Some(s));
    NewestInOrder([granted], revoked, own);
    NewestInOrder([], granted, own);
    assert [] + [granted] == [granted];
    NewestInOrder([granted], revoked, (x: Row) => Concerns(x, u, None, Some(s)));
    ActiveTokensMeaning([granted] + [revoked], u, None, Some(s), now, granted);
  }

  /** While no event arrives the active set only shrinks. */
  lemma ActiveShrinks(rows: seq<Row>, userId: string, agentId: Option<string>, scope: Option<string>, now: int, later: int)
    requires now <= later
    ensures ActiveTokens(rows, userId, agentId, scope, later) <= ActiveTokens(rows, userId, agentId, scope, now)
  {
  }

  // ------------------------------------------------------------------
  // Internal events
  // ------------------------------------------------------------------

  /** No run of insertions makes an internal agent's grant active, whatever the case or the
      padding of its name, nor an operation, nor a vault.owner grant of the system, as long as
      the service never has to fall back to consent_audit. */
  lemma InternalNeverActive(arrivals: seq<Arrival>, codec: Codec, userId: string, agentId: Option<string>,
                            scope: Option<string>, now: int, r: Row)
    requires forall i :: 0 <= i < |arrivals| ==> !FallsBack(arrivals[i], codec)
    requires r in ActiveTokens(InsertAll(arrivals, codec).audit, userId, agentId, scope, now)
    ensures !IsServiceInternal(r.agentId, r.action, r.scope)
    ensures Lower(Strip(r.agentId)) !in INTERNAL_AGENTS
  {
    AuditIsExternal(arrivals, codec);
    assert r in InsertAll(arrivals, codec).audit;
  }

  lemma AloneInAudit(a: Arrival, r: Row, codec: Codec)
    requires KeptOf(a, codec) == Some((Audit, r))
    ensures InsertAll([a], codec).audit == [r]
  {
    var outcomes := Outcomes([a], codec);
    assert outcomes == [Some((Audit, r))];
    ApplyAllMeaning(outcomes);
    assert KeptIn(outcomes[..0], Audit) == [];
  }

  lemma OnlyRowIsActive(r: Row, now: int)
    requires Live(r, now)
    ensures r in ActiveTokens([r], r.userId, None, None, now)
  {
    assert [r] == [] + [r];
    NewestInOrder([], r, (x: Row) => Concerns(x, r.userId, None, None) && x.agentId == r.agentId && x.scope == r.scope);
  }

  /** Once it does, an internal grant is active like any other. */
  lemma FallbackMakesActive(a: Arrival, codec: Codec, now: int)
    requires FallsBack(a, codec) && a.event.action == "CONSENT_GRANTED" && Live(KeptOf(a, codec).value.1, now)
    ensures var r := KeptOf(a, codec).value.1;
            r in ActiveTokens(InsertAll([a], codec).audit, r.userId, None, None, now)
            && IsServiceInternal(r.agentId, r.action, r.scope)
  {
    var r := KeptOf(a, codec).value.1;
    ServiceRowIsOwn(a.db, a.event, a.at, a.id, codec);
    AuditOutcome(a, codec);
    AloneInAudit(a, r, codec);
    OnlyRowIsActive(r, now);
  }

  // ------------------------------------------------------------------
  // Pending requests
  // ------------------------------------------------------------------

  /** The newest row of one request of a user. */
  function LatestOfRequest(rows: seq<Row>, userId: string, requestId: string): Option<Row> {
    Newest(rows, (x: Row) => x.userId == userId && x.requestId == Some(requestId))
  }

  /** The rows get_pending_requests selects. */
  function PendingRequests(rows: seq<Row>, userId: string, now: int): set<Row> {
    set r | r in rows && r.userId == userId && r.requestId.Some?
            && LatestOfRequest(rows, userId, r.requestId.value) == Some(r)
            && r.action == "REQUESTED" && (r.pollTimeoutAt.None? || r.pollTimeoutAt.value > now)
  }

  /** `poll_timeout_at or expires_at`, where zero counts as absent. */
  function Deadline(r: Row): Option<int> {
    if r.pollTimeoutAt.None? || r.pollTimeoutAt == Some(0) then r.expiresAt else r.pollTimeoutAt
  }

  /** get_pending_by_request_id */
  function PendingByRequestId(rows: seq<Row>, userId: string, requestId: string, now: int): Option<Row> {
    match LatestOfRequest(rows, userId, requestId)
    case None => None
    case Some(r) =>
      if r.action != "REQUESTED" then None
      else if Deadline(r).Some? && Deadline(r).value <= now then None
      else Some(r)
  }

  /** What the lookup returns, from the log alone: the last row of the request, if it asks and its
      deadline, which is its poll timeout or, without one or with zero, its expiry, is to come. */
  lemma PendingByRequestIdExactly(rows: seq<Row>, userId: string, requestId: string, now: int, r: Row)
    requires Ordered(rows)
    ensures PendingByRequestId(rows, userId, requestId, now) == Some(r)
       <==> && r in rows && r.userId == userId && r.requestId == Some(requestId) && r.action == "REQUESTED"
            && (if r.pollTimeoutAt.Some? && r.pollTimeoutAt.value != 0 then now < r.pollTimeoutAt.value
                else r.expiresAt.Some? ==> now < r.expiresAt.value)
            && forall q :: q in rows && q.userId == userId && q.requestId == Some(requestId) ==> q.issuedAt <= r.issuedAt
  {
    NewestIs(rows, (x: Row) => x.userId == userId && x.requestId == Some(requestId), r);
  }

  /** Which requests are pending, from the log alone: those whose last row asks and whose poll
      timeout, if they have one, is to come. */
  lemma PendingRequestsExactly(rows: seq<Row>, userId: string, now: int, r: Row)
    requires Ordered(rows)
    ensures r in PendingRequests(rows, userId, now)
       <==> && r in rows && r.userId == userId && r.requestId.Some? && r.action == "REQUESTED"
            && (r.pollTimeoutAt.Some? ==> now < r.pollTimeoutAt.value)
            && forall q :: q in rows && q.userId == userId && q.requestId == r.requestId ==> q.issuedAt <= r.issuedAt
  {
    if r.requestId.Some? {
      NewestIs(rows, (x: Row) => x.userId == userId && x.requestId == Some(r.requestId.value), r);
    }
  }

  predicate Listed(rows: seq<Row>, userId: string, requestId: string, now: int) {
    exists r :: r in PendingRequests(rows, userId, now) && r.requestId == Some(requestId)
  }

  /** The list shows a request exactly when its newest row asks and has not timed out, and
      then it shows that row and no other. */
  lemma ListedMeaning(rows: seq<Row>, userId: string, requestId: string, now: int)
    ensures Listed(rows, userId, requestId, now) <==>
            LatestOfRequest(rows, userId, requestId).Some?
            && var r := LatestOfRequest(rows, userId, requestId).value;
               r.action == "REQUESTED" && (r.pollTimeoutAt.None? || r.pollTimeoutAt.value > now)
    ensures forall r :: r in PendingRequests(rows, userId, now) && r.requestId == Some(requestId) ==>
              LatestOfRequest(rows, userId, requestId) == Some(r)
  {
    NewestIsLatest(rows, (x: Row) => x.userId == userId && x.requestId == Some(requestId));
    var latest := LatestOfRequest(rows, userId, requestId);
    if latest.Some? && latest.value.action == "REQUESTED"
       && (latest.value.pollTimeoutAt.None? || latest.value.pollTimeoutAt.value > now) {
      assert latest.value in PendingRequests(rows, userId, now);
    }
  }

  /** Whether the two views disagree about a request whose newest row is `r`: an expiry the
      list ignores has passed while no poll timeout is set, or a poll timeout of zero makes
      the lookup fall back to the expiry. */
  predicate ViewsDisagree(r: Row, now: int) {
    (r.pollTimeoutAt.None? && r.expiresAt.Some? && r.expiresAt.value <= now)
    || (r.pollTimeoutAt == Some(0) && (now < 0 <==> r.expiresAt.Some? && r.expiresAt.value <= now))
  }

  /** Both views read the same newest row, and they agree about a request that asks exactly
      outside those two cases. */
  lemma PendingViewsAgree(rows: seq<Row>, userId: string, requestId: string, now: int, r: Row)
    requires LatestOfRequest(rows, userId, requestId) == Some(r) && r.action == "REQUESTED"
    ensures (PendingByRequestId(rows, userId, requestId, now).Some? <==> Listed(rows, userId, requestId, now))
       <==> !ViewsDisagree(r, now)
  {
    ListedMeaning(rows, userId, requestId, now);
  }

  lemma LatestOfOne(r: Row, requestId: string)
    requires r.requestId == Some(requestId)
    ensures LatestOfRequest([r], r.userId, requestId) == Some(r)
  {
    assert [] + [r] == [r];
    NewestInOrder([], r, (x: Row) => x.userId == r.userId && x.requestId == Some(requestId));
  }

  /** The first disagreement: a request whose expiry has passed and that has no poll timeout is
      listed and not looked up. */
  lemma ExpiredIsOnlyListed(r: Row, requestId: string, now: int)
    requires r.action == "REQUESTED" && r.requestId == Some(requestId)
    requires r.pollTimeoutAt.None? && r.expiresAt.Some? && r.expiresAt.value <= now
    ensures Listed([r], r.userId, requestId, now) && PendingByRequestId([r], r.userId, requestId, now) == None
  {
    LatestOfOne(r, requestId);
    ListedMeaning([r], r.userId, requestId, now);
  }

  /** The second: a request with a zero poll timeout is looked up and not listed. */
  lemma ZeroTimeoutIsOnlyLookedUp(r: Row, requestId: string, now: int)
    requires r.action == "REQUESTED" && r.requestId == Some(requestId) && now >= 0
    requires r.pollTimeoutAt == Some(0) && (r.expiresAt.None? || r.expiresAt.value > now)
    ensures !Listed([r], r.userId, requestId, now) && PendingByRequestId([r], r.userId, requestId, now) == Some(r)
  {
    LatestOfOne(r, requestId);
    ListedMeaning([r], r.userId, requestId, now);
  }

  /** Without a zero poll timeout, what the lookup returns is in the list. */
  lemma LookupIsListed(rows: seq<Row>, userId: string, requestId: string, now: int)
    requires PendingByRequestId(rows, userId, requestId, now).Some?
    requires PendingByRequestId(rows, userId, requestId, now).value.pollTimeoutAt != Some(0)
    ensures PendingByRequestId(rows, userId, requestId, now).value in PendingRequests(rows, userId, now)
  {
    NewestIsLatest(rows, (x: Row) => x.userId == userId && x.requestId == Some(requestId));
  }

  /** Any later event of the request that is not another REQUESTED removes it from both. */
  lemma ResolvingRemoves(rows: seq<Row>, row: Row, requestId: string, now: int)
    requires Ordered(rows + [row]) && row.requestId == Some(requestId) && row.action != "REQUESTED"
    ensures PendingByRequestId(rows + [row], row.userId, requestId, now) == None
    ensures !Listed(rows + [row], row.userId, requestId, now)
  {
    NewestInOrder(rows, row, (x: Row) => x.userId == row.userId && x.requestId == Some(requestId));
    ListedMeaning(rows + [row], row.userId, requestId, now);
  }

  datatype PendingItem = PendingItem(
    id: Option<string>, developer: string, scope: string, scopeDescription: Option<string>,
    requestedAt: int, pollTimeoutAt: Option<int>, expiryHours: J.Json)

  /** json.loads on a metadata text, which holds a dict. */
  type Loads = string -> map<string, J.Json>

  const DEFAULT_HOURS := J.Num(24.0)

  /** The hours in the metadata; none, an empty text or a text without them mean 24. */
  function ExpiryHours(metadata: Option<string>, loads: Loads): J.Json {
    var fields := if metadata.None? || metadata.value == "" then map[] else loads(metadata.value);
    if "expiry_hours" in fields then fields["expiry_hours"] else DEFAULT_HOURS
  }

  function ToItem(r: Row, loads: Loads): PendingItem {
    PendingItem(r.requestId, r.agentId, r.scope, r.scopeDescription, r.issuedAt, r.pollTimeoutAt, ExpiryHours(r.metadata, loads))
  }

  /** ORDER BY issued_at DESC over the selected rows. */
  function NewestFirst(rows: seq<Row>, selected: set<Row>): seq<Row> {
    if rows == [] then []
    else
      var last := rows[|rows| - 1];
      (if last in selected then [last] else []) + NewestFirst(rows[..|rows| - 1], selected)
  }

  function ToItems(rows: seq<Row>, loads: Loads): (items: seq<PendingItem>)
    ensures |items| == |rows| && forall i :: 0 <= i < |rows| ==> items[i] == ToItem(rows[i], loads)
  {
    seq(|rows|, i requires 0 <= i < |rows| => ToItem(rows[i], loads))
  }

  lemma {:induction false} NewestFirstHolds(rows: seq<Row>, selected: set<Row>, r: Row)
    ensures r in NewestFirst(rows, selected) <==> r in rows && r in selected
  {
    if rows != [] {
      NewestFirstHolds(rows[..|rows| - 1], selected, r);
      assert rows == rows[..|rows| - 1] + [rows[|rows| - 1]];
    }
  }

  /** The ordered list goes from newer to older rows. */
  lemma {:induction false} NewestFirstDescends(rows: seq<Row>, selected: set<Row>)
    requires Ordered(rows)
    ensures forall i, j :: 0 <= i < j < |NewestFirst(rows, selected)| ==>
              NewestFirst(rows, selected)[i].issuedAt > NewestFirst(rows, selected)[j].issuedAt
  {
    if rows != [] {
      var before, last := rows[..|rows| - 1], rows[|rows| - 1];
      NewestFirstDescends(before, selected);
      forall j | 0 <= j < |NewestFirst(before, selected)| ensures NewestFirst(before, selected)[j].issuedAt < last.issuedAt {
        NewestFirstHolds(before, selected, NewestFirst(before, selected)[j]);
        var i :| 0 <= i < |before| && before[i] == NewestFirst(before, selected)[j];
        assert rows[i] == before[i];
      }
    }
  }

  /** get_pending_requests: the rows newest first, made into items one by one. */
  method GetPendingRequests(rows: seq<Row>, userId: string, now: int, loads: Loads)
      returns (results: seq<PendingItem>)
    requires Ordered(rows)
    ensures results == ToItems(NewestFirst(rows, PendingRequests(rows, userId, now)), loads)
  {
    results := [];
    var shown := NewestFirst(rows, PendingRequests(rows, userId, now));
    var i := 0;
    while i < |shown|
      invariant 0 <= i <= |shown| && results == ToItems(shown[..i], loads)
    {
      results := results + [ToItem(shown[i], loads)];
      i := i + 1;
    }
    assert shown[..i] == shown;
  }

  /** What the list of pending requests holds: an item for each pending row and no other, the
      newest first, showing the row's own request, agent, scope, times and hours. */
  lemma PendingListMeaning(rows: seq<Row>, userId: string, now: int, loads: Loads)
    requires Ordered(rows)
    ensures var shown := NewestFirst(rows, PendingRequests(rows, userId, now));
            var items := ToItems(shown, loads);
            && (forall r :: r in shown <==> r in PendingRequests(rows, userId, now))
            && (forall i, j :: 0 <= i < j < |shown| ==> shown[i].issuedAt > shown[j].issuedAt)
            && |items| == |shown|
            && (forall i :: 0 <= i < |shown| ==> Shows(items[i], shown[i], loads))
  {
    NewestFirstDescends(rows, PendingRequests(rows, userId, now));
    forall r ensures r in NewestFirst(rows, PendingRequests(rows, userId, now)) <==> r in PendingRequests(rows, userId, now) {
      NewestFirstHolds(rows, PendingRequests(rows, userId, now), r);
    }
  }

  predicate Shows(item: PendingItem, r: Row, loads: Loads) {
    && item.id == r.requestId && item.developer == r.agentId && item.scope == r.scope
    && item.scopeDescription == r.scopeDescription && item.requestedAt == r.issuedAt
    && item.pollTimeoutAt == r.pollTimeoutAt
    && (r.metadata.Some? && r.metadata.value != "" && "expiry_hours" in loads(r.metadata.value) ==>
          item.expiryHours == loads(r.metadata.value)["expiry_hours"])
    && (r.metadata.None? || r.metadata.value == "" || "expiry_hours" !in loads(r.metadata.value) ==>
          item.expiryHours == J.Num(24.0))
  }
}
