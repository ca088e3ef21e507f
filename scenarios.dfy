/**
  Whole queries driven through the hooks in the order query processing calls
  them: initialise, prepare the response, begin the response, (for ANY) the
  ANY answer, send, destroy.  Each method is a client of the hook contracts
  alone, in the manner of a verified test harness.
 */
module FilterAaaaScenarios {
  import opened Message
  import opened FilterAaaa

  /**
    With both settings NONE a whole query leaves the response exactly as it
    was: no set changes its RENDERED bit, no flag changes, and the only calls
    made are taking the slot and giving it back (the ACL is not consulted).
   */
  method FilteringOffIsNoOp(q: QueryCtx, aclMatches: bool, lookup: IscResult,
                            recurseResult: IscResult, doneResult: IscResult)
    requires q.Valid()
    requires q.qtype == A && q.recursing ==> q.fname.Present?
    modifies q, q.answer, q.authority, q.additional
    ensures q.answer[..] == old(q.answer[..])
    ensures q.authority[..] == old(q.authority[..])
    ensures q.additional[..] == old(q.additional[..])
    ensures q.rdataset == old(q.rdataset) && q.sigrdataset == old(q.sigrdataset)
    ensures q.filtered == old(q.filtered) && q.recursing == old(q.recursing)
    ensures q.queryRecursing == old(q.queryRecursing)
    ensures q.slot == Empty
    ensures q.hostCalls == old(q.hostCalls) + [MempoolGet, MempoolPut]
  {
    var handled, resp := q.Initialize();
    handled, resp := q.PrepResponseBegin(Policy(None, None), aclMatches);
    handled, resp := q.RespondBegin(lookup, recurseResult, doneResult);
    handled, resp := q.RespondAnyFound();
    handled, resp := q.DoneSend();
    handled, resp := q.Destroy();
  }

  /**
    A pure-IPv6 client, filter-aaaa-on-v6 set to FILTER, an ACL that matches,
    an AAAA query for a name whose A is in the cache, no DNSSEC wanted: the
    start of the response hides the answered AAAA and sets FILTERED.
   */
  method V6ClientHidesCachedAaaa() returns (q: QueryCtx)
    ensures fresh(q) && fresh(q.authority) && fresh(q.additional) && q.Valid()
    ensures q.slot == Held(Filter)
    ensures q.rdataset.rendered && q.filtered && !q.recursing
    ensures q.authority[..] == [Name("example.", map[Ns := RdataSet(false)])]
    ensures q.hostCalls == [MempoolGet, CheckAcl, FindA]
  {
    q := new QueryCtx(PeerAddr(Inet6, false), false, true, Aaaa, "example.", Present("example."),
                      "example.", false, RdataSet(false), Absent,
                      [], [Name("example.", map[Ns := RdataSet(false)])], []);
    var handled, resp := q.Initialize();
    handled, resp := q.PrepResponseBegin(Policy(None, Filter), true);
    assert q.slot == Held(Filter);
    handled, resp := q.RespondBegin(Success, Failure, Failure);
  }

  /**
    The same query to its end: because FILTERED is set, the send hook hides
    the NS set in the authority section too, and the slot is given back.
   */
  method V6ClientWithCachedA() returns (q: QueryCtx)
    ensures q.rdataset.rendered && q.filtered && !q.recursing
    ensures q.authority.Length == 1 && Ns in q.authority[0].rdatasets
    ensures q.authority[0].rdatasets[Ns].rendered
    ensures q.hostCalls == [MempoolGet, CheckAcl, FindA, MempoolPut]
  {
    q := V6ClientHidesCachedAaaa();
    var handled, resp := q.DoneSend();
    assert q.authority[..][0] == HideNsAndSig(Name("example.", map[Ns := RdataSet(false)]));
    handled, resp := q.Destroy();
  }

  /**
    The resumption hides the AAAA of a one-name answer section whose owner is
    the looked-up name, whatever the case of its letters.
   */
  lemma ResumptionHidesAaaa(answerOwner: DnsName, owner: DnsName)
    requires SameName(answerOwner, owner)
    ensures var r := HideAaaaUnder([Name(answerOwner, map[Aaaa := RdataSet(false)])], owner);
            |r| == 1 && r[0].owner == answerOwner && Aaaa in r[0].rdatasets && r[0].rdatasets[Aaaa].rendered
  {
    assert IndexOfName([Name(answerOwner, map[Aaaa := RdataSet(false)])], owner) == Present(0);
  }

  /** "EXAMPLE." in the answer is found for the query name "example.". */
  lemma UpperCaseOwnerIsFound()
    ensures var r := HideAaaaUnder([Name("EXAMPLE.", map[Aaaa := RdataSet(false)])], "example.");
            |r| == 1 && r[0].owner == "EXAMPLE." && r[0].rdatasets[Aaaa].rendered
  {
    assert forall i :: 0 <= i < 8 ==> LowerAscii("EXAMPLE."[i]) == LowerAscii("example."[i]);
    ResumptionHidesAaaa("EXAMPLE.", "example.");
  }

  /**
    The same client when the A is not in the cache and recursion is allowed:
    the first pass launches exactly one sub-lookup for the A, sets RECURSING
    and keeps the AAAA visible.
   */
  method V6ClientLaunchesSubLookup() returns (q: QueryCtx)
    ensures fresh(q) && fresh(q.answer) && q.Valid()
    ensures q.slot == Held(Filter) && q.peer == PeerAddr(Inet6, false)
    ensures q.wantDnssec == false && q.sigrdataset == Absent && q.fname == Present("example.")
    ensures q.recursing && q.queryRecursing && !q.rdataset.rendered
    ensures q.answer[..] == [Name("example.", map[Aaaa := RdataSet(false)])]
    ensures q.hostCalls == [MempoolGet, CheckAcl, FindA, QueryRecurse(A, "example.")]
  {
    q := new QueryCtx(PeerAddr(Inet6, false), false, true, Aaaa, "example.", Present("example."),
                      "example.", false, RdataSet(false), Absent,
                      [Name("example.", map[Aaaa := RdataSet(false)])], [], []);
    var handled, resp := q.Initialize();
    handled, resp := q.PrepResponseBegin(Policy(None, Filter), true);
    handled, resp := q.RespondBegin(NotFound, Success, Failure);
    assert !handled && resp == Success;
  }

  /**
    When the query then resumes with the A, the AAAA the answer section now
    holds is hidden, RECURSING is cleared and the hook completes the query
    itself.
   */
  method V6ClientResumesAfterA() returns (q: QueryCtx)
    ensures !q.recursing && q.queryRecursing
    ensures q.answer.Length == 1 && Aaaa in q.answer[0].rdatasets
    ensures q.answer[0].rdatasets[Aaaa].rendered
    ensures q.hostCalls == [MempoolGet, CheckAcl, FindA, QueryRecurse(A, "example."), QueryDone]
  {
    q := V6ClientLaunchesSubLookup();
    // The host resumes the query with the answer to the A sub-lookup.
    q.qtype := A;
    var handled, resp := q.RespondBegin(Unset, Failure, Success);
    assert handled && resp == Success;
    SameNameIsCaseBlindEquivalence("example.", "example.", "example.");
    ResumptionHidesAaaa("example.", "example.");
  }
}
