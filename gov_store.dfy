/**
 * The governance store the custom tally and end blocker read and write:
 * votes per proposal (in the store's key order), proposals, the two
 * proposal queues and the deposits held by the module.  The queue and
 * deposit operations are those of the Cosmos SDK gov keeper that the
 * module delegates to; depositors are not tracked one by one, only what the
 * module refunds and burns per proposal.
 */
module GovStore {
  import opened Wrappers
  import opened Coins
  import opened GovTypes

  /** A queue key: the proposal's deposit or voting end time and its id. */
  datatype QueueEntry = QueueEntry(endTime: int, id: nat)

  /** The votes left after the vote of `voter` is deleted. */
  function RemoveVoter(votes: seq<Vote>, voter: string): (r: seq<Vote>)
    ensures |r| <= |votes|
    ensures forall i :: 0 <= i < |r| ==> r[i] in votes && r[i].voter != voter
  {
    if votes == [] then []
    else if votes[0].voter == voter then RemoveVoter(votes[1..], voter)
    else [votes[0]] + RemoveVoter(votes[1..], voter)
  }

  /** Deleting a voter that is not there leaves the votes as they are. */
  lemma {:induction false} RemoveAbsentVoter(votes: seq<Vote>, voter: string)
    requires forall i :: 0 <= i < |votes| ==> votes[i].voter != voter
    ensures RemoveVoter(votes, voter) == votes
  {
    if votes != [] {
      RemoveAbsentVoter(votes[1..], voter);
      assert [votes[0]] + votes[1..] == votes;
    }
  }

  /** One vote per voter, as the (proposal, voter) store key makes it. */
  predicate DistinctVoters(votes: seq<Vote>) {
    forall i, j :: 0 <= i < j < |votes| ==> votes[i].voter != votes[j].voter
  }

  /** The entries of a queue whose end time has passed, in queue order. */
  function Due(queue: seq<QueueEntry>, time: int): (r: seq<QueueEntry>)
    ensures forall i :: 0 <= i < |r| ==> r[i] in queue && r[i].endTime <= time
    ensures forall e :: e in queue && e.endTime <= time ==> e in r
  {
    if queue == [] then []
    else (if queue[0].endTime <= time then [queue[0]] else []) + Due(queue[1..], time)
  }

  /** The queue without the entries of proposal `id`. */
  function Without(queue: seq<QueueEntry>, id: nat): (r: seq<QueueEntry>)
    ensures forall e :: e in r <==> e in queue && e.id != id
  {
    if queue == [] then []
    else (if queue[0].id == id then [] else [queue[0]]) + Without(queue[1..], id)
  }

  /** The votes stored for proposal `id`; none when the proposal has no entry. */
  function VotesIn(votes: map<nat, seq<Vote>>, id: nat): seq<Vote> {
    if id in votes then votes[id] else []
  }

  /** The deposits held for proposal `id`. */
  function DepositIn(deposits: map<nat, Coins>, id: nat): Coins {
    if id in deposits then deposits[id] else map[]
  }

  /** The votes once a tally has deleted every vote of proposal `id`. */
  function ClearVotes(votes: map<nat, seq<Vote>>, id: nat): (r: map<nat, seq<Vote>>)
    ensures r.Keys == votes.Keys && VotesIn(r, id) == []
    ensures forall other :: other != id ==> VotesIn(r, other) == VotesIn(votes, other)
  {
    if id in votes then votes[id := []] else votes
  }

  /** A snapshot of the whole store, as the end-block specification reads it. */
  datatype GovState = GovState(
    votes: map<nat, seq<Vote>>, proposals: map<nat, Proposal>,
    activeQueue: seq<QueueEntry>, inactiveQueue: seq<QueueEntry>,
    deposits: map<nat, Coins>, refunded: Coins, burned: Coins)

  /** Proposals are stored under their own id, every proposal's votes have distinct voters and all coin sets are valid. */
  predicate WellFormed(g: GovState) {
    (forall id :: id in g.proposals ==> g.proposals[id].id == id) &&
    (forall id :: id in g.votes ==> DistinctVoters(g.votes[id])) &&
    (forall id :: id in g.deposits ==> Valid(g.deposits[id])) &&
    Valid(g.refunded) && Valid(g.burned)
  }

  class Keeper {
    var votes: map<nat, seq<Vote>>
    var proposals: map<nat, Proposal>
    var activeQueue: seq<QueueEntry>
    var inactiveQueue: seq<QueueEntry>
    var deposits: map<nat, Coins>
    /** What the module has returned to depositors and what it has burned. */
    var refunded: Coins
    var burned: Coins

    predicate Sound()
      reads this
    {
      WellFormed(State())
    }

    function VotesOf(id: nat): seq<Vote>
      reads this
    {
      VotesIn(votes, id)
    }

    function DepositOf(id: nat): Coins
      reads this
    {
      DepositIn(deposits, id)
    }

    function State(): GovState
      reads this
    {
      GovState(votes, proposals, activeQueue, inactiveQueue, deposits, refunded, burned)
    }

    constructor ()
      ensures Sound()
      ensures votes == map[] && proposals == map[] && deposits == map[]
      ensures activeQueue == [] && inactiveQueue == [] && refunded == map[] && burned == map[]
    {
      votes := map[];
      proposals := map[];
      activeQueue := [];
      inactiveQueue := [];
      deposits := map[];
      refunded := map[];
      burned := map[];
    }

    /** `deleteVote`: removes the vote stored under (proposal, voter). */
    method DeleteVote(id: nat, voter: string)
      requires Sound()
      modifies this`votes
      ensures Sound() && votes.Keys == old(votes.Keys)
      ensures VotesOf(id) == RemoveVoter(old(VotesOf(id)), voter)
      ensures forall other :: other != id ==> VotesOf(other) == old(VotesOf(other))
    {
      if id in votes {
        var remaining := RemoveVoter(votes[id], voter);
        RemoveVoterDistinct(votes[id], voter);
        votes := votes[id := remaining];
      }
    }

    /** `SetProposal`. */
    method SetProposal(p: Proposal)
      modifies this`proposals
      ensures proposals == old(proposals)[p.id := p]
    {
      proposals := proposals[p.id := p];
    }

    /** `DeleteProposal`: drops the proposal and its entries in both queues. */
    method DeleteProposal(id: nat)
      modifies this`proposals, this`activeQueue, this`inactiveQueue
      ensures proposals == old(proposals) - {id}
      ensures activeQueue == Without(old(activeQueue), id)
      ensures inactiveQueue == Without(old(inactiveQueue), id)
    {
      proposals := proposals - {id};
      activeQueue := Without(activeQueue, id);
      inactiveQueue := Without(inactiveQueue, id);
    }

    /** `RemoveFromActiveProposalQueue`. */
    method RemoveFromActiveProposalQueue(id: nat)
      modifies this`activeQueue
      ensures activeQueue == Without(old(activeQueue), id)
    {
      activeQueue := Without(activeQueue, id);
    }

    /** `RefundAndDeleteDeposits`: the proposal's deposits go back to their depositors. */
    method RefundAndDeleteDeposits(id: nat)
      requires Sound()
      modifies this`deposits, this`refunded
      ensures Sound()
      ensures deposits == old(deposits) - {id}
      ensures refunded == Add(old(refunded), old(DepositOf(id)))
    {
      refunded := Add(refunded, DepositOf(id));
      deposits := deposits - {id};
    }

    /** `DeleteAndBurnDeposits`: the proposal's deposits are burned. */
    method DeleteAndBurnDeposits(id: nat)
      requires Sound()
      modifies this`deposits, this`burned
      ensures Sound()
      ensures deposits == old(deposits) - {id}
      ensures burned == Add(old(burned), old(DepositOf(id)))
    {
      burned := Add(burned, DepositOf(id));
      deposits := deposits - {id};
    }
  }

  /** Deleting a voter keeps the voters distinct. */
  lemma {:induction false} RemoveVoterDistinct(votes: seq<Vote>, voter: string)
    requires DistinctVoters(votes)
    ensures DistinctVoters(RemoveVoter(votes, voter))
  {
    if votes != [] {
      assert DistinctVoters(votes[1..]) by {
        forall i, j | 0 <= i < j < |votes[1..]| ensures votes[1..][i].voter != votes[1..][j].voter {
          assert votes[1..][i] == votes[i + 1] && votes[1..][j] == votes[j + 1];
        }
      }
      RemoveVoterDistinct(votes[1..], voter);
      var rest := RemoveVoter(votes[1..], voter);
      if votes[0].voter != voter {
        forall i | 0 <= i < |rest| ensures rest[i].voter != votes[0].voter {
          var k :| 0 <= k < |votes[1..]| && votes[1..][k] == rest[i];
          assert votes[k + 1] == rest[i];
        }
        var r := [votes[0]] + rest;
        forall i, j | 0 <= i < j < |r| ensures r[i].voter != r[j].voter {
          if i > 0 { assert r[i] == rest[i - 1] && r[j] == rest[j - 1]; }
          else { assert r[j] == rest[j - 1]; }
        }
      }
    }
  }

  /** Two vote maps with the same proposals that agree on every proposal but `id`, where `after` has none left. */
  lemma VotesCleared(before: map<nat, seq<Vote>>, after: map<nat, seq<Vote>>, id: nat)
    requires after.Keys == before.Keys && VotesIn(after, id) == []
    requires forall other :: other != id ==> VotesIn(after, other) == VotesIn(before, other)
    ensures after == ClearVotes(before, id)
  {
    var c := ClearVotes(before, id);
    forall x | x in after ensures after[x] == c[x] {
      assert VotesIn(after, x) == VotesIn(c, x);
    }
  }

  /** With distinct voters, deleting the first vote's voter leaves exactly the rest. */
  lemma RemoveFirstVoter(votes: seq<Vote>)
    requires votes != [] && DistinctVoters(votes)
    ensures RemoveVoter(votes, votes[0].voter) == votes[1..]
  {
    forall i | 0 <= i < |votes[1..]| ensures votes[1..][i].voter != votes[0].voter {
      assert votes[1..][i] == votes[i + 1];
    }
    RemoveAbsentVoter(votes[1..], votes[0].voter);
  }
}
