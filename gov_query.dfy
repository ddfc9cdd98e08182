/**
 * The `TallyResult` query of the custom gov query server: request checks,
 * then a dispatch on the proposal's status between the empty tally, the
 * stored final tally and a live run of the custom tally.  A query runs on a
 * copy of the store that is thrown away, so the votes the live tally
 * deletes are still there afterwards.
 */
module GovQuery {
  import opened Wrappers
  import opened GovTypes
  import GovVesting
  import opened GovStore
  import opened GovTally
  import GovAbci

  /** The gRPC status codes the query answers with; `Panicked` is a panic the query recovers into an error. */
  datatype QueryError = InvalidArgument | NotFound | Panicked

  /** The request checks: a request must be present and name a proposal other than 0. */
  function CheckRequest(req: Option<nat>): (r: Result<nat, QueryError>)
    ensures r.Ok? <==> req.Some? && req.value != 0
    ensures r.Ok? ==> r.value == req.value
  {
    if req.None? then Err(InvalidArgument)
    else if req.value == 0 then Err(InvalidArgument)
    else Ok(req.value)
  }

  /** The stored final tally; the Go code dereferences it, so a missing one panics. */
  function StoredTally(p: Proposal): Result<TallyResult, QueryError> {
    if p.finalTallyResult.Some? then Ok(p.finalTallyResult.value) else Err(Panicked)
  }

  /** The live tally of the proposal's votes, as the query's throw-away copy of the store runs it. */
  ghost function LiveTally(g: GovState, id: nat, env: TallyEnv, users: set<string>): Result<TallyResult, QueryError>
    requires GovVesting.Bounded(env.vesting, users)
  {
    match TallyOf(VotesIn(g.votes, id), env, users)
    case None => Err(Panicked)
    case Some(o) => Ok(o.tally)
  }

  /**
   * `TallyResult` as written: only Passed and Rejected read the stored
   * tally, every other status (Failed among them) re-tallies.
   */
  ghost function TallyQueryAsWritten(g: GovState, req: Option<nat>, env: TallyEnv, users: set<string>): Result<TallyResult, QueryError>
    requires GovVesting.Bounded(env.vesting, users)
  {
    match CheckRequest(req)
    case Err(e) => Err(e)
    case Ok(id) =>
      if id !in g.proposals then Err(NotFound)
      else
        var p := g.proposals[id];
        if p.status == DepositPeriod then Ok(EmptyTallyResult)
        else if p.status == Passed || p.status == Rejected then StoredTally(p)
        else LiveTally(g, id, env, users)
  }

  /** `TallyResult` with Failed read from the store like the other final statuses. */
  ghost function TallyQuery(g: GovState, req: Option<nat>, env: TallyEnv, users: set<string>): Result<TallyResult, QueryError>
    requires GovVesting.Bounded(env.vesting, users)
  {
    match CheckRequest(req)
    case Err(e) => Err(e)
    case Ok(id) =>
      if id !in g.proposals then Err(NotFound)
      else
        var p := g.proposals[id];
        if p.status == DepositPeriod then Ok(EmptyTallyResult)
        else if p.status == Passed || p.status == Rejected || p.status == Failed then StoredTally(p)
        else LiveTally(g, id, env, users)
  }

  /**
   * The query handler as written, Failed re-tallied; the store is left as
   * it was.
   */
  method TallyResult(k: Keeper, req: Option<nat>, env: TallyEnv, ghost users: set<string>) returns (r: Result<TallyResult, QueryError>)
    requires k.Sound() && GovVesting.Bounded(env.vesting, users)
    modifies k`votes
    ensures r == TallyQueryAsWritten(old(k.State()), req, env, users)
    ensures k.State() == old(k.State())
  {
    var checked := CheckRequest(req);
    if checked.Err? {
      return Err(checked.error);
    }
    var id := checked.value;
    if id !in k.proposals {
      return Err(NotFound);
    }
    var p := k.proposals[id];
    if p.status == DepositPeriod {
      return Ok(EmptyTallyResult);
    }
    if p.status == Passed || p.status == Rejected {
      return StoredTally(p);
    }
    var saved := k.votes;
    var t := Tally(k, id, env, users);
    k.votes := saved;
    if t.None? {
      return Err(Panicked);
    }
    return Ok(t.value.tally);
  }

  /** The request errors: a missing request or id 0 is invalid, an unknown id is not found. */
  lemma QueryErrors(g: GovState, req: Option<nat>, env: TallyEnv, users: set<string>)
    requires GovVesting.Bounded(env.vesting, users)
    ensures TallyQuery(g, req, env, users) == Err(InvalidArgument) <==> req.None? || req.value == 0
    ensures TallyQuery(g, req, env, users) == Err(NotFound) <==> req.Some? && req.value != 0 && req.value !in g.proposals
    ensures TallyQueryAsWritten(g, req, env, users) == Err(InvalidArgument) <==> req.None? || req.value == 0
    ensures TallyQueryAsWritten(g, req, env, users) == Err(NotFound) <==> req.Some? && req.value != 0 && req.value !in g.proposals
  {
  }

  /** The handler as written and the corrected dispatch differ only on a proposal whose status is Failed. */
  lemma QueryDiffersOnlyOnFailed(g: GovState, req: Option<nat>, env: TallyEnv, users: set<string>)
    requires GovVesting.Bounded(env.vesting, users)
    ensures TallyQuery(g, req, env, users) != TallyQueryAsWritten(g, req, env, users) ==>
      req.Some? && req.value in g.proposals && g.proposals[req.value].status == Failed
  {
  }

  /** For a proposal still in its voting period the query is the live tally of its votes. */
  lemma QueryDuringVoting(g: GovState, id: nat, env: TallyEnv, users: set<string>)
    requires GovVesting.Bounded(env.vesting, users)
    requires id != 0 && id in g.proposals && g.proposals[id].status == VotingPeriod
    ensures TallyQuery(g, Some(id), env, users) == TallyQueryAsWritten(g, Some(id), env, users)
    ensures TallyQuery(g, Some(id), env, users) ==
      (match TallyOf(VotesIn(g.votes, id), env, users) case None => Err(Panicked) case Some(o) => Ok(o.tally))
  {
  }

  /** Once a voting period has ended, the query answers with the tally the end blocker computed, whatever the final status. */
  lemma QueryAfterEnd<S(!new), M>(g: GovState, s: S, id: nat, handler: (S, M) -> Option<S>, msgsOf: nat -> Option<seq<M>>,
                                 envOf: S -> TallyEnv, usersOf: S -> set<string>, env: TallyEnv, users: set<string>)
    requires WellFormed(g) && GovAbci.VestingBounded(envOf, usersOf) && GovVesting.Bounded(env.vesting, users) && id != 0
    requires GovAbci.EndVoting(g, s, id, handler, msgsOf, envOf, usersOf).Some?
    ensures TallyOf(VotesIn(g.votes, id), envOf(s), usersOf(s)).Some?
    ensures TallyQuery(GovAbci.EndVoting(g, s, id, handler, msgsOf, envOf, usersOf).value.0, Some(id), env, users)
         == Ok(TallyOf(VotesIn(g.votes, id), envOf(s), usersOf(s)).value.tally)
  {
    GovAbci.EndVotingCases(g, s, id, handler, msgsOf, envOf, usersOf);
    GovAbci.EndVotingSettles(g, s, id, handler, msgsOf, envOf, usersOf, TallyOf(VotesIn(g.votes, id), envOf(s), usersOf(s)).value);
  }

  /**
   * As written, the query of a proposal that ended Failed re-tallies after
   * the end blocker deleted its votes, and reports zero for every option
   * instead of its stored final tally.
   */
  lemma FailedQueryForgetsTally<S(!new), M>(g: GovState, s: S, id: nat, handler: (S, M) -> Option<S>, msgsOf: nat -> Option<seq<M>>,
                                           envOf: S -> TallyEnv, usersOf: S -> set<string>, env: TallyEnv, users: set<string>)
    requires WellFormed(g) && GovAbci.VestingBounded(envOf, usersOf) && GovVesting.Bounded(env.vesting, users) && id != 0
    requires GovVesting.Collect(env.vesting, users, None, map[], 0).err.None?
    requires GovAbci.EndVoting(g, s, id, handler, msgsOf, envOf, usersOf).Some?
    requires GovAbci.EndVoting(g, s, id, handler, msgsOf, envOf, usersOf).value.0.proposals[id].status == Failed
    ensures TallyQueryAsWritten(GovAbci.EndVoting(g, s, id, handler, msgsOf, envOf, usersOf).value.0, Some(id), env, users)
         == Ok(EmptyTallyResult)
  {
    GovAbci.EndVotingCases(g, s, id, handler, msgsOf, envOf, usersOf);
    GovAbci.EndVotingSettles(g, s, id, handler, msgsOf, envOf, usersOf, TallyOf(VotesIn(g.votes, id), envOf(s), usersOf(s)).value);
    NoVotesTally(env, users);
  }
}
