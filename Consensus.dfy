/** The peer vote that gates `modifyBlock`: the HTTP status of every
    peer's reply is collected (one per peer, in peer order), the replies
    with status 200 are counted, and the block is rewritten when that
    count is at least half the number of peers. Sending the requests and
    waiting for the replies is not part of this model; the statuses are
    an input. */
module Consensus {
  import opened Hashing
  import opened Blocks
  import opened Ledger

  const StatusOk := 200

  /** `peerResponses.filter(resp => resp.status === 200).length`. */
  function ApprovalCount(statuses: seq<int>): (r: nat)
    ensures r <= |statuses|
    ensures r == multiset(statuses)[StatusOk]
  {
    if statuses == [] then 0
    else
      var init := statuses[..|statuses| - 1];
      assert statuses == init + [statuses[|statuses| - 1]];
      ApprovalCount(init) + (if statuses[|statuses| - 1] == StatusOk then 1 else 0)
  }

  /** `approvals >= peers.length / 2`, where `/` is division of numbers,
      so that exactly half the peers approving is enough. There is one
      status per peer. */
  predicate QuorumReached(statuses: seq<int>)
    ensures QuorumReached(statuses) <==>
              ApprovalCount(statuses) as real >= (|statuses| as real) / 2.0
  {
    2 * ApprovalCount(statuses) >= |statuses|
  }

  /** The replies with any status other than 200. */
  function RejectionCount(statuses: seq<int>): (r: nat)
    ensures r <= |statuses|
  {
    if statuses == [] then 0
    else RejectionCount(statuses[..|statuses| - 1]) + (if statuses[|statuses| - 1] != StatusOk then 1 else 0)
  }

  /** Every reply is an approval or a rejection, and not both. */
  lemma {:induction false} ApprovalsAndRejectionsPartition(statuses: seq<int>)
    ensures ApprovalCount(statuses) + RejectionCount(statuses) == |statuses|
  {
    if statuses != [] {
      ApprovalsAndRejectionsPartition(statuses[..|statuses| - 1]);
    }
  }

  /** The quorum is reached exactly when at least as many peers answer
      200 as answer anything else. */
  lemma QuorumIffApprovalsAtLeastRejections(statuses: seq<int>)
    ensures QuorumReached(statuses) <==> ApprovalCount(statuses) >= RejectionCount(statuses)
  {
    ApprovalsAndRejectionsPartition(statuses);
  }

  /** One more approving reply never turns a reached quorum into a
      rejection, and one more refusing reply never turns a rejection into
      a reached quorum. */
  lemma QuorumMonotone(statuses: seq<int>, s: int)
    ensures s == StatusOk && QuorumReached(statuses) ==> QuorumReached(statuses + [s])
    ensures s != StatusOk && !QuorumReached(statuses) ==> !QuorumReached(statuses + [s])
  {
    var t := statuses + [s];
    assert t[..|t| - 1] == statuses;
  }

  /** With no peers the vote passes. Ties pass: two approvals out of four.
      A minority fails: one approval out of four. */
  lemma QuorumExamples()
    ensures QuorumReached([])
    ensures QuorumReached([200, 200, 500, 404])
    ensures !QuorumReached([200, 500, 503, 404])
  {
    assert [200, 200, 500, 404][..3] == [200, 200, 500];
    assert [200, 200, 500][..2] == [200, 200];
    assert [200, 500, 503, 404][..3] == [200, 500, 503];
    assert [200, 500, 503][..2] == [200, 500];
  }

  /** The rule of the modification route: when the quorum is reached the
      block is rewritten with `modifyBlock` (whose own refusal of an index
      out of range is not reported); otherwise nothing changes. */
  method ProposeModification(ledger: Blockchain, index: int, newData: Json, statuses: seq<int>)
    returns (approved: bool)
    requires ledger.Valid()
    modifies ledger.chain
    ensures approved == QuorumReached(statuses)
    ensures ledger.Valid() && ledger.chain == old(ledger.chain)
    ensures ledger.View() ==
              if approved then Modified(ledger.engine, old(ledger.View()), index, newData)
              else old(ledger.View())
  {
    var approvals := ApprovalCount(statuses);
    if 2 * approvals >= |statuses| {
      var _ := ledger.ModifyBlock(index, newData);
      approved := true;
    } else {
      approved := false;
    }
  }
}
