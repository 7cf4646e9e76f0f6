/** What `verify_approval` answers, read off the two files and the chain themselves. */
module Recognition {
  import opened Values
  import opened LineageLedger
  import opened Packages
  import opened Operations
  import PD = PolicyDocument

  /** A person, or a string a policy can have signed with. */
  ghost predicate ApproverCounts(human: string -> bool, approver: string) {
    human(approver) || PD.PolicySignature(approver)
  }

  ghost predicate LedgerHolds(human: string -> bool, approvals: seq<ApprovalEntry>, hash: string) {
    exists a :: a in approvals && a.approvedHash == hash && ApproverCounts(human, a.approver)
  }

  /** Some event of that action has the hash and the revision in one item of its evidence. */
  ghost predicate ChainHolds(chain: seq<Event>, hash: string, revision: int) {
    exists e, item :: e in chain && e.action == "package.approved" && item in e.evidence
                      && item.approvedHash == hash && item.revision == revision
  }

  lemma LedgerHoldsIff(human: string -> bool, approvals: seq<ApprovalEntry>, hash: string)
    ensures HasMatchingApproval(human, approvals, hash) <==> LedgerHolds(human, approvals, hash)
  {
    hide PD.IsPolicyApprover, PD.PolicySignature;
    forall a ensures Recognised(human, a) <==> ApproverCounts(human, a) {
      PD.PolicyApproverIff(a);
    }
    hide Recognised, ApproverCounts;
    if HasMatchingApproval(human, approvals, hash) {
      var i :| 0 <= i < |approvals| && approvals[i].approvedHash == hash
               && Recognised(human, approvals[i].approver);
      assert approvals[i] in approvals;
    }
  }

  lemma ChainHoldsIff(chain: seq<Event>, hash: string, revision: int)
    ensures ChainHas(chain, hash, revision) <==> ChainHolds(chain, hash, revision)
  {
    if ChainHas(chain, hash, revision) {
      var i :| 0 <= i < |chain| && CarriesApproval(chain[i], hash, revision);
      var k :| 0 <= k < |chain[i].evidence| && chain[i].evidence[k].approvedHash == hash
               && chain[i].evidence[k].revision == revision;
      assert chain[i] in chain && chain[i].evidence[k] in chain[i].evidence;
    }
    if ChainHolds(chain, hash, revision) {
      var e, item :| e in chain && e.action == "package.approved" && item in e.evidence
                     && item.approvedHash == hash && item.revision == revision;
      assert CarriesApproval(e, hash, revision);
    }
  }

  /** The answer is true exactly when the ledger holds an approval of the content's hash by a person or in a
  policy's name and, unless only the ledger is asked, the chain can be consulted and holds its event. It
  raises exactly when the content has no hash. */
  lemma VerifiedExactly(sha: Digest, human: string -> bool, d: Disk, intact: bool, ledgerOnly: bool)
    ensures VerifyAnswer(sha, human, d, intact, ledgerOnly) == Verified <==>
              exists hash :: PackageHash(sha, d.pkg) == Some(hash)
                             && LedgerHolds(human, d.lin.approvals, hash)
                             && (ledgerOnly || (intact && ChainHolds(d.chain, hash, d.pkg.revision)))
    ensures VerifyAnswer(sha, human, d, intact, ledgerOnly) == RaisedError <==>
              PackageHash(sha, d.pkg) == None
  {
    hide PackageHash, HasMatchingApproval, LedgerHolds, ChainHas, ChainHolds;
    if PackageHash(sha, d.pkg).Some? {
      var hash := PackageHash(sha, d.pkg).value;
      LedgerHoldsIff(human, d.lin.approvals, hash);
      ChainHoldsIff(d.chain, hash, d.pkg.revision);
    }
  }
}
