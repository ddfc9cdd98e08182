/**
 * The governance end blocker: proposals whose deposit period ran out are
 * deleted and refunded; proposals whose voting period ended are tallied
 * with the custom tally, their deposits burned or refunded, the messages
 * of a passing proposal executed against a cached copy of the application
 * state (kept only when every message succeeds), and their final status
 * and tally stored.
 *
 * The state of the other modules is an abstract `S`, proposal messages an
 * abstract `M`; a message handler maps a state to the new state or fails.
 * The staking and vesting views the tally reads are a function of `S`.
 */
module GovAbci {
  import opened Wrappers
  import opened Coins
  import opened GovTypes
  import GovVesting
  import opened GovStore
  import opened GovTally

  /** The state of the modules proposal messages act on. */
  class AppStore<S> {
    var state: S

    constructor (s: S)
      ensures state == s
    {
      state := s;
    }
  }

  /** The messages run one after the other; the first failure ends the run. */
  function RunMsgs<S, M>(handler: (S, M) -> Option<S>, s: S, msgs: seq<M>): Option<S>
  {
    if msgs == [] then Some(s)
    else
      match handler(s, msgs[0])
      case None => None
      case Some(t) => RunMsgs(handler, t, msgs[1..])
  }

  /** Running two batches is running the first and, if it succeeds, the second. */
  lemma {:induction false} RunMsgsAppend<S, M>(handler: (S, M) -> Option<S>, s: S, a: seq<M>, b: seq<M>)
    ensures RunMsgs(handler, s, a + b) ==
      (match RunMsgs(handler, s, a) case None => None case Some(t) => RunMsgs(handler, t, b))
  {
    if a != [] {
      assert (a + b)[0] == a[0] && (a + b)[1..] == a[1..] + b;
      match handler(s, a[0])
      case None =>
      case Some(t) => RunMsgsAppend(handler, t, a[1..], b);
    } else {
      assert a + b == b;
    }
  }

  /** A message that fails makes the whole run fail, whatever comes after it. */
  lemma RunMsgsFailsAt<S, M>(handler: (S, M) -> Option<S>, s: S, msgs: seq<M>, i: nat)
    requires i < |msgs| && RunMsgs(handler, s, msgs[..i]).Some?
    requires handler(RunMsgs(handler, s, msgs[..i]).value, msgs[i]).None?
    ensures RunMsgs(handler, s, msgs) == None
  {
    assert msgs == msgs[..i] + msgs[i..];
    RunMsgsAppend(handler, s, msgs[..i], msgs[i..]);
    assert msgs[i..][0] == msgs[i];
  }

  /** A successful run went through every message: each prefix succeeds. */
  lemma RunMsgsPrefixes<S, M>(handler: (S, M) -> Option<S>, s: S, msgs: seq<M>, i: nat)
    requires i <= |msgs| && RunMsgs(handler, s, msgs).Some?
    ensures RunMsgs(handler, s, msgs[..i]).Some?
  {
    assert msgs == msgs[..i] + msgs[i..];
    RunMsgsAppend(handler, s, msgs[..i], msgs[i..]);
  }

  /** The handler loop over the cached state; the run stops at the first failure. */
  method ExecuteMsgs<S, M>(handler: (S, M) -> Option<S>, s: S, msgs: seq<M>) returns (r: Option<S>)
    ensures r == RunMsgs(handler, s, msgs)
  {
    var cache := s;
    var i := 0;
    while i < |msgs|
      invariant 0 <= i <= |msgs|
      invariant RunMsgs(handler, s, msgs) == RunMsgs(handler, cache, msgs[i..])
    {
      assert msgs[i..][0] == msgs[i] && msgs[i..][1..] == msgs[i + 1..];
      var res := handler(cache, msgs[i]);
      if res.None? {
        return None;
      }
      cache := res.value;
      i := i + 1;
    }
    return Some(cache);
  }

  /** Decoding the proposal's messages and running them; a decoding error fails like a handler. */
  function Executed<S, M>(handler: (S, M) -> Option<S>, s: S, msgs: Option<seq<M>>): Option<S> {
    match msgs
    case None => None
    case Some(ms) => RunMsgs(handler, s, ms)
  }

  /** The tally reads a vesting contract that answers within the voters it knows, in every state. */
  ghost predicate VestingBounded<S(!new)>(envOf: S -> TallyEnv, usersOf: S -> set<string>) {
    forall t :: GovVesting.Bounded(envOf(t).vesting, usersOf(t))
  }

  /** A proposal whose deposit period ran out: deleted, and its deposits refunded. */
  function DropProposal(g: GovState, id: nat): (r: Option<GovState>)
    requires WellFormed(g)
    ensures r.Some? ==> WellFormed(r.value)
  {
    if id !in g.proposals then None
    else Some(g.(proposals := g.proposals - {id},
                 activeQueue := Without(g.activeQueue, id),
                 inactiveQueue := Without(g.inactiveQueue, id),
                 deposits := g.deposits - {id},
                 refunded := Add(g.refunded, DepositIn(g.deposits, id))))
  }

  /** The inactive-queue pass over the given entries, in order; a missing proposal panics. */
  function DropAll(g: GovState, entries: seq<QueueEntry>): (r: Option<GovState>)
    requires WellFormed(g)
    ensures r.Some? ==> WellFormed(r.value)
    decreases |entries|
  {
    if entries == [] then Some(g)
    else
      match DropProposal(g, entries[0].id)
      case None => None
      case Some(g') => DropAll(g', entries[1..])
  }

  /** The status a tallied proposal ends in. */
  function FinalStatus<S>(passes: bool, run: Option<S>): ProposalStatus {
    if !passes then Rejected else if run.Some? then Passed else Failed
  }

  /** The store once a tallied proposal's deposits, status, final tally and queue entry are settled. */
  function Settled(g: GovState, id: nat, burnDeposits: bool, status: ProposalStatus, tally: TallyResult): (r: GovState)
    requires WellFormed(g) && id in g.proposals
    ensures WellFormed(r)
  {
    var deposit := DepositIn(g.deposits, id);
    g.(deposits := g.deposits - {id},
       refunded := if burnDeposits then g.refunded else Add(g.refunded, deposit),
       burned := if burnDeposits then Add(g.burned, deposit) else g.burned,
       proposals := g.proposals[id := g.proposals[id].(status := status, finalTallyResult := Some(tally))],
       activeQueue := Without(g.activeQueue, id))
  }

  /** Clearing a proposal's votes keeps the store well formed. */
  lemma ClearVotesWellFormed(g: GovState, id: nat)
    requires WellFormed(g)
    ensures WellFormed(g.(votes := ClearVotes(g.votes, id)))
  {
    var c := ClearVotes(g.votes, id);
    forall x | x in c ensures DistinctVoters(c[x]) {
      if x != id {
        assert VotesIn(c, x) == VotesIn(g.votes, x);
      }
    }
  }

  /** A proposal whose voting period ended: tally, deposits, execution, status. */
  ghost function EndVoting<S(!new), M>(g: GovState, s: S, id: nat, handler: (S, M) -> Option<S>, msgsOf: nat -> Option<seq<M>>,
                                 envOf: S -> TallyEnv, usersOf: S -> set<string>): (r: Option<(GovState, S)>)
    requires WellFormed(g) && VestingBounded(envOf, usersOf)
    ensures r.Some? ==> WellFormed(r.value.0)
  {
    if id !in g.proposals then None
    else
      var outcome := TallyOf(VotesIn(g.votes, id), envOf(s), usersOf(s));
      if outcome.None? then None
      else
        var o := outcome.value;
        var run := if o.passes then Executed(handler, s, msgsOf(id)) else None;
        ClearVotesWellFormed(g, id);
        Some((Settled(g.(votes := ClearVotes(g.votes, id)), id, o.burnDeposits, FinalStatus(o.passes, run), o.tally),
              if run.Some? then run.value else s))
  }

  /** The active-queue pass over the given entries, in order. */
  ghost function EndAll<S(!new), M>(g: GovState, s: S, entries: seq<QueueEntry>, handler: (S, M) -> Option<S>,
                              msgsOf: nat -> Option<seq<M>>, envOf: S -> TallyEnv, usersOf: S -> set<string>): Option<(GovState, S)>
    requires WellFormed(g) && VestingBounded(envOf, usersOf)
    decreases |entries|
  {
    if entries == [] then Some((g, s))
    else
      match EndVoting(g, s, entries[0].id, handler, msgsOf, envOf, usersOf)
      case None => None
      case Some(next) => EndAll(next.0, next.1, entries[1..], handler, msgsOf, envOf, usersOf)
  }

  /** `EndBlocker` at block time `time`: the inactive pass, then the active pass over what is due then. */
  ghost function EndBlock<S(!new), M>(g: GovState, s: S, time: int, handler: (S, M) -> Option<S>,
                                msgsOf: nat -> Option<seq<M>>, envOf: S -> TallyEnv, usersOf: S -> set<string>): Option<(GovState, S)>
    requires WellFormed(g) && VestingBounded(envOf, usersOf)
  {
    match DropAll(g, Due(g.inactiveQueue, time))
    case None => None
    case Some(g') => EndAll(g', s, Due(g'.activeQueue, time), handler, msgsOf, envOf, usersOf)
  }

  /** One entry of the inactive pass. */
  method DropInactive(k: Keeper, id: nat) returns (ok: bool)
    requires k.Sound()
    modifies k
    ensures k.Sound()
    ensures ok == DropProposal(old(k.State()), id).Some?
    ensures ok ==> k.State() == DropProposal(old(k.State()), id).value
  {
    if id !in k.proposals {
      return false;
    }
    k.DeleteProposal(id);
    k.RefundAndDeleteDeposits(id);
    return true;
  }

  /** The store updates after the tally of one entry of the active pass. */
  method Settle(k: Keeper, id: nat, burnDeposits: bool, status: ProposalStatus, tally: TallyResult)
    requires k.Sound() && id in k.proposals
    modifies k
    ensures k.Sound()
    ensures k.State() == Settled(old(k.State()), id, burnDeposits, status, tally)
  {
    ghost var r := Settled(k.State(), id, burnDeposits, status, tally);
    var proposal := k.proposals[id];
    assert proposal.id == id;
    if burnDeposits {
      k.DeleteAndBurnDeposits(id);
    } else {
      k.RefundAndDeleteDeposits(id);
    }
    assert k.deposits == r.deposits && k.refunded == r.refunded && k.burned == r.burned;
    k.SetProposal(proposal.(status := status, finalTallyResult := Some(tally)));
    assert k.proposals == r.proposals;
    k.RemoveFromActiveProposalQueue(id);
    assert k.activeQueue == r.activeQueue;
    assert k.State() == r;
  }

  /** A passing proposal's messages run on a cache, written back only if all of them succeed. */
  method ExecuteProposal<S, M>(app: AppStore<S>, handler: (S, M) -> Option<S>, msgs: Option<seq<M>>) returns (run: Option<S>)
    modifies app
    ensures run == Executed(handler, old(app.state), msgs)
    ensures app.state == if run.Some? then run.value else old(app.state)
  {
    run := None;
    if msgs.Some? {
      run := ExecuteMsgs(handler, app.state, msgs.value);
    }
    if run.Some? {
      app.state := run.value;
    }
  }

  /** One entry of the active pass. */
  method EndVotingPeriod<S(!new), M>(k: Keeper, app: AppStore<S>, id: nat, handler: (S, M) -> Option<S>,
                               msgsOf: nat -> Option<seq<M>>, envOf: S -> TallyEnv, ghost usersOf: S -> set<string>)
    returns (ok: bool)
    requires k.Sound() && VestingBounded(envOf, usersOf)
    modifies k, app
    ensures k.Sound()
    ensures ok == EndVoting(old(k.State()), old(app.state), id, handler, msgsOf, envOf, usersOf).Some?
    ensures ok ==> (k.State(), app.state) == EndVoting(old(k.State()), old(app.state), id, handler, msgsOf, envOf, usersOf).value
  {
    if id !in k.proposals {
      return false;
    }
    ghost var g := k.State();
    assert GovVesting.Bounded(envOf(app.state).vesting, usersOf(app.state));
    var tally := Tally(k, id, envOf(app.state), usersOf(app.state));
    if tally.None? {
      return false;
    }
    forall other | other != id ensures VotesIn(k.votes, other) == VotesIn(g.votes, other) {
      assert k.VotesOf(other) == VotesIn(k.votes, other);
    }
    VotesCleared(g.votes, k.votes, id);
    assert k.State() == g.(votes := ClearVotes(g.votes, id));
    var o := tally.value;
    var run: Option<S> := None;
    if o.passes {
      run := ExecuteProposal(app, handler, msgsOf(id));
    }
    Settle(k, id, o.burnDeposits, FinalStatus(o.passes, run), o.tally);
    return true;
  }

  /** The inactive pass over `entries`. */
  method DropDue(k: Keeper, entries: seq<QueueEntry>) returns (ok: bool)
    requires k.Sound()
    modifies k
    ensures k.Sound()
    ensures ok == DropAll(old(k.State()), entries).Some?
    ensures ok ==> k.State() == DropAll(old(k.State()), entries).value
  {
    var i := 0;
    while i < |entries|
      invariant 0 <= i <= |entries|
      invariant k.Sound()
      invariant DropAll(old(k.State()), entries) == DropAll(k.State(), entries[i..])
    {
      assert entries[i..][0] == entries[i] && entries[i..][1..] == entries[i + 1..];
      ok := DropInactive(k, entries[i].id);
      if !ok {
        return;
      }
      i := i + 1;
    }
    assert entries[i..] == [];
    return true;
  }

  /** The active pass over `entries`. */
  method EndDue<S(!new), M>(k: Keeper, app: AppStore<S>, entries: seq<QueueEntry>, handler: (S, M) -> Option<S>,
                            msgsOf: nat -> Option<seq<M>>, envOf: S -> TallyEnv, ghost usersOf: S -> set<string>)
    returns (ok: bool)
    requires k.Sound() && VestingBounded(envOf, usersOf)
    modifies k, app
    ensures ok == EndAll(old(k.State()), old(app.state), entries, handler, msgsOf, envOf, usersOf).Some?
    ensures ok ==> (k.State(), app.state) == EndAll(old(k.State()), old(app.state), entries, handler, msgsOf, envOf, usersOf).value
  {
    var i := 0;
    while i < |entries|
      invariant 0 <= i <= |entries|
      invariant k.Sound()
      invariant EndAll(old(k.State()), old(app.state), entries, handler, msgsOf, envOf, usersOf)
             == EndAll(k.State(), app.state, entries[i..], handler, msgsOf, envOf, usersOf)
    {
      assert entries[i..][0] == entries[i] && entries[i..][1..] == entries[i + 1..];
      ok := EndVotingPeriod(k, app, entries[i].id, handler, msgsOf, envOf, usersOf);
      if !ok {
        return;
      }
      i := i + 1;
    }
    assert entries[i..] == [];
    return true;
  }

  /** `EndBlocker`: `ok` is false exactly where the chain would panic. */
  method EndBlocker<S(!new), M>(k: Keeper, app: AppStore<S>, time: int, handler: (S, M) -> Option<S>,
                          msgsOf: nat -> Option<seq<M>>, envOf: S -> TallyEnv, ghost usersOf: S -> set<string>)
    returns (ok: bool)
    requires k.Sound() && VestingBounded(envOf, usersOf)
    modifies k, app
    ensures ok == EndBlock(old(k.State()), old(app.state), time, handler, msgsOf, envOf, usersOf).Some?
    ensures ok ==> (k.State(), app.state) == EndBlock(old(k.State()), old(app.state), time, handler, msgsOf, envOf, usersOf).value
  {
    ok := DropDue(k, Due(k.inactiveQueue, time));
    if !ok {
      return;
    }
    ok := EndDue(k, app, Due(k.activeQueue, time), handler, msgsOf, envOf, usersOf);
  }

  /** The end state of a tallied proposal: a final status and a stored tally. */
  predicate Final(p: Proposal) {
    (p.status == Passed || p.status == Rejected || p.status == Failed) && p.finalTallyResult.Some?
  }

  /** What settling a tallied proposal changes in the store. */
  lemma SettledShape(g: GovState, id: nat, burnDeposits: bool, status: ProposalStatus, tally: TallyResult)
    requires WellFormed(g) && id in g.proposals
    ensures
      var r := Settled(g, id, burnDeposits, status, tally);
      && r.proposals.Keys == g.proposals.Keys
      && (forall x :: x in g.proposals && x != id ==> r.proposals[x] == g.proposals[x])
      && r.proposals[id].status == status && r.proposals[id].finalTallyResult == Some(tally)
      && r.activeQueue == Without(g.activeQueue, id) && r.inactiveQueue == g.inactiveQueue
      && r.votes == g.votes && r.deposits == g.deposits - {id}
      && (if burnDeposits then r.burned == Add(g.burned, DepositIn(g.deposits, id)) && r.refunded == g.refunded
          else r.refunded == Add(g.refunded, DepositIn(g.deposits, id)) && r.burned == g.burned)
  {
  }

  /**
   * `next` is the store and application state after settling proposal `id`
   * of `g` with tally outcome `o`, `run` being what executing its messages
   * on `s` gives.
   */
  ghost predicate SettledFrom<S>(g: GovState, s: S, id: nat, o: TallyOutcome, run: Option<S>, next: (GovState, S))
    requires WellFormed(g) && id in g.proposals
  {
    && next.0.proposals.Keys == g.proposals.Keys
    && (forall x :: x in g.proposals && x != id ==> next.0.proposals[x] == g.proposals[x])
    && Final(next.0.proposals[id]) && next.0.proposals[id].finalTallyResult == Some(o.tally)
    && (next.0.proposals[id].status == Passed <==> o.passes && run.Some?)
    && (next.0.proposals[id].status == Rejected <==> !o.passes)
    && (next.0.proposals[id].status == Failed <==> o.passes && run.None?)
    && next.1 == (if o.passes && run.Some? then run.value else s)
    && next.0.activeQueue == Without(g.activeQueue, id) && next.0.inactiveQueue == g.inactiveQueue
    && VotesIn(next.0.votes, id) == [] && next.0.deposits == g.deposits - {id}
    && (if o.burnDeposits then next.0.burned == Add(g.burned, DepositIn(g.deposits, id)) && next.0.refunded == g.refunded
        else next.0.refunded == Add(g.refunded, DepositIn(g.deposits, id)) && next.0.burned == g.burned)
  }

  /** What one entry of the active pass does, in terms of the tally and the message run. */
  lemma EndVotingSettles<S(!new), M>(g: GovState, s: S, id: nat, handler: (S, M) -> Option<S>, msgsOf: nat -> Option<seq<M>>,
                                    envOf: S -> TallyEnv, usersOf: S -> set<string>, o: TallyOutcome)
    requires WellFormed(g) && VestingBounded(envOf, usersOf) && id in g.proposals
    requires TallyOf(VotesIn(g.votes, id), envOf(s), usersOf(s)) == Some(o)
    ensures EndVoting(g, s, id, handler, msgsOf, envOf, usersOf).Some?
    ensures SettledFrom(g, s, id, o, Executed(handler, s, msgsOf(id)), EndVoting(g, s, id, handler, msgsOf, envOf, usersOf).value)
  {
    var run := if o.passes then Executed(handler, s, msgsOf(id)) else None;
    ClearVotesWellFormed(g, id);
    var cleared := g.(votes := ClearVotes(g.votes, id));
    var status := FinalStatus(o.passes, run);
    SettledShape(cleared, id, o.burnDeposits, status, o.tally);
    assert EndVoting(g, s, id, handler, msgsOf, envOf, usersOf)
        == Some((Settled(cleared, id, o.burnDeposits, status, o.tally), if run.Some? then run.value else s));
  }

  /** Every entry of the active pass either panics or settles its proposal. */
  lemma EndVotingCases<S(!new), M>(g: GovState, s: S, id: nat, handler: (S, M) -> Option<S>, msgsOf: nat -> Option<seq<M>>,
                                  envOf: S -> TallyEnv, usersOf: S -> set<string>)
    requires WellFormed(g) && VestingBounded(envOf, usersOf)
    ensures EndVoting(g, s, id, handler, msgsOf, envOf, usersOf).Some?
        <==> id in g.proposals && TallyOf(VotesIn(g.votes, id), envOf(s), usersOf(s)).Some?
  {
  }

  /** A passing proposal one of whose messages fails ends Failed, and the other modules keep their state. */
  lemma FailedMessageDiscarded<S(!new), M>(g: GovState, s: S, id: nat, handler: (S, M) -> Option<S>, msgsOf: nat -> Option<seq<M>>,
                                          envOf: S -> TallyEnv, usersOf: S -> set<string>, i: nat)
    requires WellFormed(g) && VestingBounded(envOf, usersOf) && id in g.proposals
    requires TallyOf(VotesIn(g.votes, id), envOf(s), usersOf(s)).Some?
    requires TallyOf(VotesIn(g.votes, id), envOf(s), usersOf(s)).value.passes
    requires msgsOf(id).Some? && i < |msgsOf(id).value|
    requires RunMsgs(handler, s, msgsOf(id).value[..i]).Some?
    requires handler(RunMsgs(handler, s, msgsOf(id).value[..i]).value, msgsOf(id).value[i]).None?
    ensures EndVoting(g, s, id, handler, msgsOf, envOf, usersOf).value.0.proposals[id].status == Failed
    ensures EndVoting(g, s, id, handler, msgsOf, envOf, usersOf).value.1 == s
  {
    RunMsgsFailsAt(handler, s, msgsOf(id).value, i);
    EndVotingSettles(g, s, id, handler, msgsOf, envOf, usersOf, TallyOf(VotesIn(g.votes, id), envOf(s), usersOf(s)).value);
  }

  /** No queue entry of a proposal in `entries`. */
  predicate Untouched(e: QueueEntry, entries: seq<QueueEntry>) {
    forall j :: 0 <= j < |entries| ==> entries[j].id != e.id
  }

  lemma UntouchedCons(e: QueueEntry, entries: seq<QueueEntry>)
    requires entries != []
    ensures Untouched(e, entries) <==> e.id != entries[0].id && Untouched(e, entries[1..])
  {
    if e.id != entries[0].id && Untouched(e, entries[1..]) {
      forall j | 0 < j < |entries| ensures entries[j].id != e.id {
        assert entries[j] == entries[1..][j - 1];
      }
    }
    if Untouched(e, entries) {
      forall j | 0 <= j < |entries[1..]| ensures entries[1..][j].id != e.id {
        assert entries[1..][j] == entries[j + 1];
      }
    }
  }

  /** The inactive pass deletes each listed proposal with its queue entries and deposits. */
  lemma {:induction false} DropAllGone(g: GovState, entries: seq<QueueEntry>)
    requires WellFormed(g) && DropAll(g, entries).Some?
    ensures
      var g' := DropAll(g, entries).value;
      && (forall e :: e in g'.inactiveQueue <==> e in g.inactiveQueue && Untouched(e, entries))
      && (forall e :: e in g'.activeQueue <==> e in g.activeQueue && Untouched(e, entries))
      && (forall j :: 0 <= j < |entries| ==> entries[j].id !in g'.proposals && entries[j].id !in g'.deposits)
      && g'.proposals.Keys <= g.proposals.Keys && g'.deposits.Keys <= g.deposits.Keys
      && (forall x :: x in g'.proposals ==> g'.proposals[x] == g.proposals[x])
    decreases |entries|
  {
    if entries != [] {
      var next := DropProposal(g, entries[0].id).value;
      DropAllGone(next, entries[1..]);
      var g' := DropAll(g, entries).value;
      assert g' == DropAll(next, entries[1..]).value;
      forall e ensures Untouched(e, entries) <==> e.id != entries[0].id && Untouched(e, entries[1..]) {
        UntouchedCons(e, entries);
      }
      assert entries[0].id !in next.proposals && entries[0].id !in next.deposits;
      forall j | 0 < j < |entries| ensures entries[j].id !in g'.proposals && entries[j].id !in g'.deposits {
        assert entries[j] == entries[1..][j - 1];
      }
    }
  }

  /** One entry of the active pass, as the queue and proposal bookkeeping sees it. */
  predicate Stepped(g: GovState, g': GovState, id: nat) {
    && id in g.proposals
    && g'.proposals.Keys == g.proposals.Keys
    && (forall x :: x in g.proposals && x != id ==> g'.proposals[x] == g.proposals[x])
    && Final(g'.proposals[id])
    && g'.activeQueue == Without(g.activeQueue, id) && g'.inactiveQueue == g.inactiveQueue
  }

  lemma EndVotingStep<S(!new), M>(g: GovState, s: S, id: nat, handler: (S, M) -> Option<S>, msgsOf: nat -> Option<seq<M>>,
                                 envOf: S -> TallyEnv, usersOf: S -> set<string>)
    requires WellFormed(g) && VestingBounded(envOf, usersOf)
    requires EndVoting(g, s, id, handler, msgsOf, envOf, usersOf).Some?
    ensures Stepped(g, EndVoting(g, s, id, handler, msgsOf, envOf, usersOf).value.0, id)
  {
    EndVotingCases(g, s, id, handler, msgsOf, envOf, usersOf);
    EndVotingSettles(g, s, id, handler, msgsOf, envOf, usersOf, TallyOf(VotesIn(g.votes, id), envOf(s), usersOf(s)).value);
  }

  /** The active pass gives every listed proposal its final status and tally, and drops their active entries. */
  lemma {:induction false} EndAllFinal<S(!new), M>(g: GovState, s: S, entries: seq<QueueEntry>, handler: (S, M) -> Option<S>,
                                                  msgsOf: nat -> Option<seq<M>>, envOf: S -> TallyEnv, usersOf: S -> set<string>)
    requires WellFormed(g) && VestingBounded(envOf, usersOf)
    requires EndAll(g, s, entries, handler, msgsOf, envOf, usersOf).Some?
    ensures
      var g' := EndAll(g, s, entries, handler, msgsOf, envOf, usersOf).value.0;
      && (forall e :: e in g'.activeQueue <==> e in g.activeQueue && Untouched(e, entries))
      && g'.inactiveQueue == g.inactiveQueue
      && g'.proposals.Keys == g.proposals.Keys
      && (forall x :: x in g.proposals ==> g'.proposals[x] == g.proposals[x] || Final(g'.proposals[x]))
      && (forall j :: 0 <= j < |entries| ==> entries[j].id in g.proposals && Final(g'.proposals[entries[j].id]))
    decreases |entries|
  {
    if entries != [] {
      var id := entries[0].id;
      EndVotingStep(g, s, id, handler, msgsOf, envOf, usersOf);
      var next := EndVoting(g, s, id, handler, msgsOf, envOf, usersOf).value;
      EndAllFinal(next.0, next.1, entries[1..], handler, msgsOf, envOf, usersOf);
      var g' := EndAll(g, s, entries, handler, msgsOf, envOf, usersOf).value.0;
      assert g' == EndAll(next.0, next.1, entries[1..], handler, msgsOf, envOf, usersOf).value.0;
      forall e ensures Untouched(e, entries) <==> e.id != id && Untouched(e, entries[1..]) {
        UntouchedCons(e, entries);
      }
      forall j | 0 <= j < |entries| ensures entries[j].id in g.proposals && Final(g'.proposals[entries[j].id]) {
        if j > 0 {
          assert entries[j] == entries[1..][j - 1];
        }
      }
    }
  }

  /** An entry left in a queue after every due entry's proposal was removed is not due. */
  lemma NotDue(queue: seq<QueueEntry>, time: int, e: QueueEntry)
    requires e in queue && Untouched(e, Due(queue, time))
    ensures e.endTime > time
  {
  }

  /**
   * After the end blocker nothing due is left in either queue, and every
   * proposal whose voting period ended (and that was not dropped as
   * inactive first) is final.
   */
  lemma EndBlockClearsDue<S(!new), M>(g: GovState, s: S, time: int, handler: (S, M) -> Option<S>,
                                     msgsOf: nat -> Option<seq<M>>, envOf: S -> TallyEnv, usersOf: S -> set<string>)
    requires WellFormed(g) && VestingBounded(envOf, usersOf)
    requires EndBlock(g, s, time, handler, msgsOf, envOf, usersOf).Some?
    ensures
      var g' := EndBlock(g, s, time, handler, msgsOf, envOf, usersOf).value.0;
      && (forall e :: e in g'.inactiveQueue ==> e.endTime > time)
      && (forall e :: e in g'.activeQueue ==> e.endTime > time)
      && (forall e :: e in g.activeQueue && e.endTime <= time && Untouched(e, Due(g.inactiveQueue, time)) ==>
            e.id in g'.proposals && Final(g'.proposals[e.id]))
  {
    var inactive := Due(g.inactiveQueue, time);
    DropAllGone(g, inactive);
    var g1 := DropAll(g, inactive).value;
    var active := Due(g1.activeQueue, time);
    EndAllFinal(g1, s, active, handler, msgsOf, envOf, usersOf);
    var g' := EndAll(g1, s, active, handler, msgsOf, envOf, usersOf).value.0;
    forall e | e in g'.inactiveQueue ensures e.endTime > time {
      NotDue(g.inactiveQueue, time, e);
    }
    forall e | e in g'.activeQueue ensures e.endTime > time {
      NotDue(g1.activeQueue, time, e);
    }
    forall e | e in g.activeQueue && e.endTime <= time && Untouched(e, inactive)
      ensures e.id in g'.proposals && Final(g'.proposals[e.id])
    {
      assert e in active;
      var j :| 0 <= j < |active| && active[j] == e;
    }
  }

  /** The deposits of denom `d` held for all proposals. */
  ghost function DepositTotal(deposits: map<nat, Coins>, d: Denom): nat
    decreases |deposits|
  {
    if deposits == map[] then 0
    else
      var id :| id in deposits;
      assert |deposits - {id}| < |deposits| by { assert (deposits - {id}).Keys < deposits.Keys; }
      AmountOf(deposits[id], d) + DepositTotal(deposits - {id}, d)
  }

  lemma {:induction false} DepositTotalRemove(deposits: map<nat, Coins>, id: nat, d: Denom)
    ensures DepositTotal(deposits, d) == AmountOf(DepositIn(deposits, id), d) + DepositTotal(deposits - {id}, d)
    decreases |deposits|
  {
    if id !in deposits {
      assert deposits - {id} == deposits;
    } else {
      var u :| u in deposits && DepositTotal(deposits, d) == AmountOf(deposits[u], d) + DepositTotal(deposits - {u}, d);
      if u != id {
        assert |deposits - {u}| < |deposits| by { assert (deposits - {u}).Keys < deposits.Keys; }
        DepositTotalRemove(deposits - {u}, id, d);
        assert |deposits - {id}| < |deposits| by { assert (deposits - {id}).Keys < deposits.Keys; }
        DepositTotalRemove(deposits - {id}, u, d);
        assert deposits - {u} - {id} == deposits - {id} - {u};
      }
    }
  }

  /** Coins of denom `d` the module has taken in as deposits: still held, refunded or burned. */
  ghost function Held(g: GovState, d: Denom): nat {
    DepositTotal(g.deposits, d) + AmountOf(g.refunded, d) + AmountOf(g.burned, d)
  }

  /** Dropping an inactive proposal moves its deposits to the refunded coins. */
  lemma DropConserves(g: GovState, id: nat, d: Denom)
    requires WellFormed(g) && DropProposal(g, id).Some?
    ensures Held(DropProposal(g, id).value, d) == Held(g, d)
  {
    DepositTotalRemove(g.deposits, id, d);
  }

  /** Ending a voting period moves the proposal's deposits to the refunded or to the burned coins. */
  lemma EndVotingConserves<S(!new), M>(g: GovState, s: S, id: nat, handler: (S, M) -> Option<S>, msgsOf: nat -> Option<seq<M>>,
                                      envOf: S -> TallyEnv, usersOf: S -> set<string>, d: Denom)
    requires WellFormed(g) && VestingBounded(envOf, usersOf)
    requires EndVoting(g, s, id, handler, msgsOf, envOf, usersOf).Some?
    ensures Held(EndVoting(g, s, id, handler, msgsOf, envOf, usersOf).value.0, d) == Held(g, d)
  {
    EndVotingCases(g, s, id, handler, msgsOf, envOf, usersOf);
    var o := TallyOf(VotesIn(g.votes, id), envOf(s), usersOf(s)).value;
    EndVotingSettles(g, s, id, handler, msgsOf, envOf, usersOf, o);
    DepositTotalRemove(g.deposits, id, d);
  }

  lemma {:induction false} DropAllConserves(g: GovState, entries: seq<QueueEntry>, d: Denom)
    requires WellFormed(g) && DropAll(g, entries).Some?
    ensures Held(DropAll(g, entries).value, d) == Held(g, d)
    decreases |entries|
  {
    if entries != [] {
      DropConserves(g, entries[0].id, d);
      DropAllConserves(DropProposal(g, entries[0].id).value, entries[1..], d);
    }
  }

  lemma {:induction false} EndAllConserves<S(!new), M>(g: GovState, s: S, entries: seq<QueueEntry>, handler: (S, M) -> Option<S>,
                                                      msgsOf: nat -> Option<seq<M>>, envOf: S -> TallyEnv, usersOf: S -> set<string>, d: Denom)
    requires WellFormed(g) && VestingBounded(envOf, usersOf)
    requires EndAll(g, s, entries, handler, msgsOf, envOf, usersOf).Some?
    ensures Held(EndAll(g, s, entries, handler, msgsOf, envOf, usersOf).value.0, d) == Held(g, d)
    decreases |entries|
  {
    if entries != [] {
      EndVotingConserves(g, s, entries[0].id, handler, msgsOf, envOf, usersOf, d);
      var next := EndVoting(g, s, entries[0].id, handler, msgsOf, envOf, usersOf).value;
      EndAllConserves(next.0, next.1, entries[1..], handler, msgsOf, envOf, usersOf, d);
    }
  }

  /** The end blocker neither creates nor loses deposited coins: it only refunds or burns them. */
  lemma EndBlockConserves<S(!new), M>(g: GovState, s: S, time: int, handler: (S, M) -> Option<S>,
                                     msgsOf: nat -> Option<seq<M>>, envOf: S -> TallyEnv, usersOf: S -> set<string>, d: Denom)
    requires WellFormed(g) && VestingBounded(envOf, usersOf)
    requires EndBlock(g, s, time, handler, msgsOf, envOf, usersOf).Some?
    ensures Held(EndBlock(g, s, time, handler, msgsOf, envOf, usersOf).value.0, d) == Held(g, d)
  {
    var inactive := Due(g.inactiveQueue, time);
    DropAllConserves(g, inactive, d);
    var g1 := DropAll(g, inactive).value;
    EndAllConserves(g1, s, Due(g1.activeQueue, time), handler, msgsOf, envOf, usersOf, d);
  }
}
