/**
  The filter-aaaa query plugin: per query, decide whether AAAA record sets are
  hidden from the response when the same name also has an A record set.

  A set is hidden by turning on its RENDERED attribute, which makes the
  encoder skip it as if it had been written already.  The plugin works at six
  hook points of query processing: query context initialisation, the start of
  response preparation (the effective mode is fixed there), the start of the
  response (explicit AAAA queries, and the resumption after a sub-lookup for
  the A), the ANY answer, the send of the finished response (additional and
  authority sections) and query context destruction.

  The first half of this module holds the decisions as functions; the class
  `QueryCtx` holds the state the hooks update in place and a method per hook,
  each specified by those functions.
 */
module FilterAaaa {
  import opened Message

  /** filter_aaaa_t: NONE ("no"), FILTER ("yes") and BREAK_DNSSEC ("break-dnssec"). */
  datatype Mode = None | Filter | BreakDnssec

  /** The two configured settings, filter-aaaa-on-v4 and filter-aaaa-on-v6. */
  datatype Policy = Policy(v4Aaaa: Mode, v6Aaaa: Mode)

  /** The address family of the client's peer address and, for IPv6, whether it is an IPv4-mapped address. */
  datatype Family = Inet | Inet6 | OtherFamily
  datatype PeerAddr = PeerAddr(family: Family, v4Mapped: bool)

  /** isc_result_t values the hooks see: lookup outcomes, and results handed back to the caller. */
  datatype IscResult = Unset | Success | Delegation | NotFound | Failure

  /** The calls the plugin makes into code outside itself, in the order it makes them. */
  datatype HostCall =
    | MempoolGet                                      // isc_mempool_get
    | MempoolPut                                      // isc_mempool_put
    | CheckAcl                                        // ns_client_checkaclsilent
    | FindA                                           // dns_db_findrdataset for the A
    | QueryRecurse(qtype: RdataType, qname: DnsName)  // the host's query_recurse
    | QueryDone                                       // the host's query_done

  /** The per-query slot: empty, or holding the effective mode. */
  datatype Slot = Empty | Held(mode: Mode)

  // ---------------------------------------------------------------------------
  // Mode resolution
  // ---------------------------------------------------------------------------

  /** is_v4_client: an IPv4 peer, or an IPv6 peer whose address is IPv4-mapped. */
  predicate IsV4Client(p: PeerAddr)
    ensures p.family == Inet ==> IsV4Client(p)
    ensures p.family == Inet6 ==> (IsV4Client(p) <==> p.v4Mapped)
    ensures p.family == OtherFamily ==> !IsV4Client(p)
  {
    p.family == Inet || (p.family == Inet6 && p.v4Mapped)
  }

  /** is_v6_client: an IPv6 peer whose address is not IPv4-mapped. */
  function IsV6Client(p: PeerAddr): (r: bool)
    ensures r ==> !IsV4Client(p)
    ensures p.family == Inet6 ==> r != IsV4Client(p)
    ensures p.family != Inet6 ==> !r
  {
    p.family == Inet6 && !p.v4Mapped
  }

  /**
    The effective mode filter_prep_response_begin leaves in the slot, given the
    mode there before (`current`) and the verdict of the ACL for this client.
   */
  function ResolveMode(current: Mode, policy: Policy, peer: PeerAddr, aclMatches: bool): (m: Mode)
    ensures policy.v4Aaaa == None && policy.v6Aaaa == None ==> m == current
    ensures !aclMatches ==> m == current
    ensures aclMatches && policy.v4Aaaa != None && IsV4Client(peer) ==> m == policy.v4Aaaa
    ensures aclMatches && policy.v6Aaaa != None && IsV6Client(peer) ==> m == policy.v6Aaaa
    ensures m != current ==>
              aclMatches &&
              ((policy.v4Aaaa != None && IsV4Client(peer) && m == policy.v4Aaaa) ||
               (policy.v6Aaaa != None && IsV6Client(peer) && m == policy.v6Aaaa))
  {
    if policy.v4Aaaa != None || policy.v6Aaaa != None then
      if aclMatches && policy.v4Aaaa != None && IsV4Client(peer) then policy.v4Aaaa
      else if aclMatches && policy.v6Aaaa != None && IsV6Client(peer) then policy.v6Aaaa
      else current
    else current
  }

  /** Resolving the mode again with the same inputs changes nothing. */
  lemma ResolveModeIdempotent(current: Mode, policy: Policy, peer: PeerAddr, aclMatches: bool)
    ensures var m := ResolveMode(current, policy, peer, aclMatches);
            ResolveMode(m, policy, peer, aclMatches) == m
  {
  }

  // ---------------------------------------------------------------------------
  // The DNSSEC rule
  // ---------------------------------------------------------------------------

  /**
    The test at the head of filter_respond_begin: the hook does nothing when
    the mode is NONE, or when it is FILTER and the client wants DNSSEC and the
    answer carries a signature set.
   */
  function RespondBypassed(mode: Mode, wantDnssec: bool, sigPresent: bool): (r: bool)
    ensures r <==> mode == None || (mode == Filter && wantDnssec && sigPresent)
    ensures mode == BreakDnssec ==> !r
  {
    mode != BreakDnssec && (mode != Filter || (wantDnssec && sigPresent))
  }

  /** The condition the ANY answer and the additional section use before hiding a possibly signed AAAA. */
  predicate SigPermitsHiding(sigPresent: bool, wantDnssec: bool, mode: Mode)
  {
    !sigPresent || !wantDnssec || mode == BreakDnssec
  }

  /** Under any mode but NONE the explicit-query path and the other paths apply the same DNSSEC rule. */
  lemma SameDnssecRule(mode: Mode, wantDnssec: bool, sigPresent: bool)
    requires mode != None
    ensures !RespondBypassed(mode, wantDnssec, sigPresent) <==> SigPermitsHiding(sigPresent, wantDnssec, mode)
  {
  }

  // ---------------------------------------------------------------------------
  // The explicit-query path
  // ---------------------------------------------------------------------------

  /** What filter_respond_begin does with a query. */
  datatype Action =
    | Pass          // nothing: bypassed, or a query type this hook leaves alone
    | HideAaaa      // the A is known: hide the AAAA and its signature, note FILTERED
    | ShowAaaa      // there is taken to be no A: make the AAAA and its signature visible
    | RecurseForA   // the A is not known locally: launch a sub-lookup for it
    | ResumeAfterA  // the sub-lookup came back: hide the AAAA already in the answer

  /**
    The decision of filter_respond_begin from the effective mode, the client's
    DNSSEC wish, whether the answered set has a signature, the query type, the
    RECURSING flag, the outcome of the local lookup for the A, and whether the
    answer is authoritative and recursion allowed.
   */
  function RespondBeginAction(mode: Mode, wantDnssec: bool, sigPresent: bool, qtype: RdataType,
                              recursing: bool, lookup: IscResult, authoritative: bool,
                              recursionOk: bool): (act: Action)
    ensures RespondBypassed(mode, wantDnssec, sigPresent) ==> act == Pass
    ensures act == HideAaaa <==>
              !RespondBypassed(mode, wantDnssec, sigPresent) && qtype == Aaaa && lookup == Success
    ensures act == RecurseForA <==>
              !RespondBypassed(mode, wantDnssec, sigPresent) && qtype == Aaaa &&
              (lookup == Delegation || lookup == NotFound) && !authoritative && recursionOk
    ensures act == ShowAaaa <==>
              !RespondBypassed(mode, wantDnssec, sigPresent) && qtype == Aaaa && lookup != Success &&
              (authoritative || !recursionOk || (lookup != Delegation && lookup != NotFound))
    ensures act == ResumeAfterA <==>
              !RespondBypassed(mode, wantDnssec, sigPresent) && qtype == A && recursing
  {
    if RespondBypassed(mode, wantDnssec, sigPresent) then Pass
    else if qtype == Aaaa then
      if lookup == Success then HideAaaa
      else if authoritative || !recursionOk || (lookup != Delegation && lookup != NotFound) then ShowAaaa
      else RecurseForA
    else if qtype == A && recursing then ResumeAfterA
    else Pass
  }

  /** The signature set, if any, with its RENDERED bit set to `on`. */
  function SetSigRendered(sig: Option<RdataSet>, on: bool): (r: Option<RdataSet>)
    ensures r.Present? == sig.Present?
    ensures r.Present? ==> r.value.rendered == on
  {
    match sig
    case Absent => Absent
    case Present(s) => Present(s.(rendered := on))
  }

  /** Hides the AAAA set and the RRSIG(AAAA) set under n, those that exist; nothing else changes. */
  function HideAaaaAndSig(n: Name): (r: Name)
    ensures r.owner == n.owner && r.rdatasets.Keys == n.rdatasets.Keys
    ensures Aaaa in n.rdatasets ==> r.rdatasets[Aaaa].rendered
    ensures Rrsig(Aaaa) in n.rdatasets ==> r.rdatasets[Rrsig(Aaaa)].rendered
    ensures forall t :: t in n.rdatasets && t != Aaaa && t != Rrsig(Aaaa) ==> r.rdatasets[t] == n.rdatasets[t]
  {
    MarkRendered(MarkRendered(n, Aaaa), Rrsig(Aaaa))
  }

  /**
    The answer section after the resumption: the first name that is the given
    owner has its AAAA and RRSIG(AAAA) hidden; every other set and every other
    name is untouched.
   */
  function HideAaaaUnder(s: seq<Name>, owner: DnsName): (r: seq<Name>)
    ensures |r| == |s|
    ensures IndexOfName(s, owner).Absent? ==> r == s
    ensures forall k :: 0 <= k < |s| && IndexOfName(s, owner) != Present(k) ==> r[k] == s[k]
    ensures IndexOfName(s, owner).Present? ==>
              var k := IndexOfName(s, owner).value;
              r[k].owner == s[k].owner && r[k].rdatasets.Keys == s[k].rdatasets.Keys &&
              (Aaaa in s[k].rdatasets ==> r[k].rdatasets[Aaaa].rendered) &&
              (Rrsig(Aaaa) in s[k].rdatasets ==> r[k].rdatasets[Rrsig(Aaaa)].rendered)
  {
    match IndexOfName(s, owner)
    case Absent => s
    case Present(k) => s[k := HideAaaaAndSig(s[k])]
  }

  /** Under the name the resumption finds, every set but the AAAA and the RRSIG(AAAA) is unchanged. */
  lemma HideAaaaUnderKeepsOtherSets(s: seq<Name>, owner: DnsName, k: nat, t: RdataType)
    requires IndexOfName(s, owner) == Present(k)
    requires t in s[k].rdatasets && t != Aaaa && t != Rrsig(Aaaa)
    ensures HideAaaaUnder(s, owner)[k].rdatasets[t] == s[k].rdatasets[t]
  {
  }

  // ---------------------------------------------------------------------------
  // The ANY path and the additional section
  // ---------------------------------------------------------------------------

  /**
    The rule filter_respond_any_found applies to the answer name: hide its
    AAAA (and signature) when an A is present or assumed, an AAAA is present
    and the DNSSEC rule allows it.  Only an authoritative answer lacking the A
    counts as having no A.
   */
  function FilterAnyName(n: Name, authoritative: bool, mode: Mode, wantDnssec: bool): (r: Name)
    ensures r.owner == n.owner && r.rdatasets.Keys == n.rdatasets.Keys
    ensures forall t :: t in n.rdatasets && t != Aaaa && t != Rrsig(Aaaa) ==> r.rdatasets[t] == n.rdatasets[t]
    ensures forall t :: t in n.rdatasets && (t == Aaaa || t == Rrsig(Aaaa)) ==>
              (r.rdatasets[t].rendered <==>
                 n.rdatasets[t].rendered ||
                 ((!authoritative || A in n.rdatasets) && Aaaa in n.rdatasets &&
                  SigPermitsHiding(Rrsig(Aaaa) in n.rdatasets, wantDnssec, mode)))
  {
    var haveA := !authoritative || FindType(n, A).Present?;
    if haveA && FindType(n, Aaaa).Present? &&
       SigPermitsHiding(FindType(n, Rrsig(Aaaa)).Present?, wantDnssec, mode)
    then HideAaaaAndSig(n)
    else n
  }

  /** The answer section after filter_respond_any_found, for the name the answer is about. */
  function FilterAnyAnswer(s: seq<Name>, owner: DnsName, authoritative: bool, mode: Mode,
                           wantDnssec: bool): (r: seq<Name>)
    ensures |r| == |s|
    ensures mode == None || IndexOfName(s, owner).Absent? ==> r == s
    ensures forall k :: 0 <= k < |s| && IndexOfName(s, owner) != Present(k) ==> r[k] == s[k]
    ensures mode != None && IndexOfName(s, owner).Present? ==>
              var k := IndexOfName(s, owner).value;
              r[k] == FilterAnyName(s[k], authoritative, mode, wantDnssec)
  {
    if mode == None then s
    else match IndexOfName(s, owner)
      case Absent => s
      case Present(k) => s[k := FilterAnyName(s[k], authoritative, mode, wantDnssec)]
  }

  /**
    The rule filter_query_done_send applies to each name of the additional
    section: only a name with both an A and an AAAA can lose its AAAA, under
    the DNSSEC rule of the ANY path; this is the ANY rule for an
    authoritative answer.
   */
  function FilterAdditionalName(n: Name, mode: Mode, wantDnssec: bool): (r: Name)
    ensures !(A in n.rdatasets && Aaaa in n.rdatasets) ==> r == n
    ensures r == FilterAnyName(n, true, mode, wantDnssec)
  {
    if FindType(n, A).Absent? then n
    else if FindType(n, Aaaa).Absent? then n
    else if SigPermitsHiding(FindType(n, Rrsig(Aaaa)).Present?, wantDnssec, mode) then HideAaaaAndSig(n)
    else n
  }

  /** Applying the additional-section rule to a name a second time changes nothing. */
  lemma FilterAdditionalNameIdempotent(n: Name, mode: Mode, wantDnssec: bool)
    ensures FilterAdditionalName(FilterAdditionalName(n, mode, wantDnssec), mode, wantDnssec)
            == FilterAdditionalName(n, mode, wantDnssec)
  {
  }

  /** The additional section after the first walk of filter_query_done_send. */
  function SweepAdditional(s: seq<Name>, mode: Mode, wantDnssec: bool): (r: seq<Name>)
    ensures |r| == |s|
    ensures forall k :: 0 <= k < |s| ==> r[k] == FilterAdditionalName(s[k], mode, wantDnssec)
  {
    if s == [] then []
    else [FilterAdditionalName(s[0], mode, wantDnssec)] + SweepAdditional(s[1..], mode, wantDnssec)
  }

  /** Sweeping the additional section twice is sweeping it once. */
  lemma {:induction false} SweepAdditionalIdempotent(s: seq<Name>, mode: Mode, wantDnssec: bool)
    ensures SweepAdditional(SweepAdditional(s, mode, wantDnssec), mode, wantDnssec)
            == SweepAdditional(s, mode, wantDnssec)
  {
    var r := SweepAdditional(s, mode, wantDnssec);
    forall k | 0 <= k < |s|
      ensures SweepAdditional(r, mode, wantDnssec)[k] == r[k]
    {
      FilterAdditionalNameIdempotent(s[k], mode, wantDnssec);
    }
  }

  // ---------------------------------------------------------------------------
  // The authority section
  // ---------------------------------------------------------------------------

  /** Hides the NS set and the RRSIG(NS) set under n, those that exist; nothing else changes. */
  function HideNsAndSig(n: Name): (r: Name)
    ensures r.owner == n.owner && r.rdatasets.Keys == n.rdatasets.Keys
    ensures Ns in n.rdatasets ==> r.rdatasets[Ns].rendered
    ensures Rrsig(Ns) in n.rdatasets ==> r.rdatasets[Rrsig(Ns)].rendered
    ensures forall t :: t in n.rdatasets && t != Ns && t != Rrsig(Ns) ==> r.rdatasets[t] == n.rdatasets[t]
  {
    MarkRendered(MarkRendered(n, Ns), Rrsig(Ns))
  }

  /** The authority section after the second walk of filter_query_done_send, which runs when FILTERED is set. */
  function SweepAuthority(s: seq<Name>): (r: seq<Name>)
    ensures |r| == |s|
    ensures forall k :: 0 <= k < |s| ==> r[k] == HideNsAndSig(s[k])
  {
    if s == [] then []
    else [HideNsAndSig(s[0])] + SweepAuthority(s[1..])
  }

  /**
    After the send hook every NS and RRSIG(NS) set of the authority section is
    hidden if and only if FILTERED was set (or it was hidden before), and no
    other set changes; under mode NONE the section is untouched.
   */
  lemma AuthorityHiddenIffFiltered(s: seq<Name>, mode: Mode, filtered: bool)
    ensures var r := if mode != None && filtered then SweepAuthority(s) else s;
            |r| == |s| &&
            (forall k, t :: 0 <= k < |s| && t in s[k].rdatasets && (t == Ns || t == Rrsig(Ns)) ==>
               (r[k].rdatasets[t].rendered <==> (mode != None && filtered) || s[k].rdatasets[t].rendered)) &&
            (forall k, t :: 0 <= k < |s| && t in s[k].rdatasets && t != Ns && t != Rrsig(Ns) ==>
               r[k].rdatasets[t] == s[k].rdatasets[t])
  {
  }

  // ---------------------------------------------------------------------------
  // The query context and the hooks
  // ---------------------------------------------------------------------------

  /**
    The state one query's hooks read and write: the plugin's slot in the query
    context, the query's own attributes, the two per-client flags this plugin
    keeps (FILTER_AAAA_RECURSING and FILTER_AAAA_FILTERED), and the three
    sections of the response message.
   */
  class QueryCtx {
    // The slot qctx->hookdata[module_id], taken from and returned to the pool.
    var slot: Slot

    // The query.
    var qtype: RdataType
    var qname: DnsName             // client->query.qname
    var fname: Option<DnsName>     // the name found for the answer, if any
    var tname: DnsName             // the name the lookup targeted
    var authoritative: bool
    var rdataset: RdataSet         // the set being answered
    var sigrdataset: Option<RdataSet>  // its signature set, when one is associated

    // The client.
    var peer: PeerAddr
    var wantDnssec: bool           // NS_CLIENTATTR_WANTDNSSEC
    var recursionOk: bool          // NS_QUERYATTR_RECURSIONOK
    var queryRecursing: bool       // NS_QUERYATTR_RECURSING
    var recursing: bool            // FILTER_AAAA_RECURSING in hookflags[module_id]
    var filtered: bool             // FILTER_AAAA_FILTERED in hookflags[module_id]

    // The response message.
    var answer: array<Name>
    var authority: array<Name>
    var additional: array<Name>

    // Every call made outside the plugin, in order.
    var hostCalls: seq<HostCall>

    ghost predicate Valid()
      reads this
    {
      answer != authority && answer != additional && authority != additional
    }

    constructor (peer: PeerAddr, wantDnssec: bool, recursionOk: bool, qtype: RdataType,
                 qname: DnsName, fname: Option<DnsName>, tname: DnsName, authoritative: bool,
                 rdataset: RdataSet, sigrdataset: Option<RdataSet>,
                 answer: seq<Name>, authority: seq<Name>, additional: seq<Name>)
      ensures Valid() && fresh(this.answer) && fresh(this.authority) && fresh(this.additional)
      ensures this.answer[..] == answer && this.authority[..] == authority && this.additional[..] == additional
      ensures this.peer == peer && this.wantDnssec == wantDnssec && this.recursionOk == recursionOk
      ensures this.qtype == qtype && this.qname == qname && this.fname == fname && this.tname == tname
      ensures this.authoritative == authoritative
      ensures this.rdataset == rdataset && this.sigrdataset == sigrdataset
      ensures slot == Empty && !queryRecursing && !recursing && !filtered && hostCalls == []
    {
      this.peer, this.wantDnssec, this.recursionOk := peer, wantDnssec, recursionOk;
      this.qtype, this.qname, this.fname, this.tname := qtype, qname, fname, tname;
      this.authoritative := authoritative;
      this.rdataset, this.sigrdataset := rdataset, sigrdataset;
      this.answer := new Name[|answer|](i requires 0 <= i < |answer| => answer[i]);
      this.authority := new Name[|authority|](i requires 0 <= i < |authority| => authority[i]);
      this.additional := new Name[|additional|](i requires 0 <= i < |additional| => additional[i]);
      slot := Empty;
      queryRecursing, recursing, filtered := false, false, false;
      hostCalls := [];
    }

    /** filter_qctx_initialize: take a slot from the pool and set it to NONE. */
    method Initialize() returns (handled: bool, resp: IscResult)
      modifies this`slot, this`hostCalls
      ensures slot == Held(None)
      ensures hostCalls == old(hostCalls) + [MempoolGet]
      ensures !handled && resp == Unset
    {
      hostCalls := hostCalls + [MempoolGet];
      slot := Held(None);
      handled, resp := false, Unset;
    }

    /**
      filter_prep_response_begin: fix the effective mode.  `aclMatches` is the
      verdict the ACL check gives for this client; the check is made only when
      one of the two settings is not NONE.
     */
    method PrepResponseBegin(policy: Policy, aclMatches: bool) returns (handled: bool, resp: IscResult)
      requires slot.Held?
      modifies this`slot, this`hostCalls
      ensures slot == Held(ResolveMode(old(slot.mode), policy, peer, aclMatches))
      ensures hostCalls == old(hostCalls) +
                (if policy.v4Aaaa != None || policy.v6Aaaa != None then [CheckAcl] else [])
      ensures !handled && resp == Unset
    {
      if policy.v4Aaaa != None || policy.v6Aaaa != None {
        hostCalls := hostCalls + [CheckAcl];
        var result := if aclMatches then Success else Failure;
        if result == Success && policy.v4Aaaa != None && IsV4Client(peer) {
          slot := Held(policy.v4Aaaa);
        } else if result == Success && policy.v6Aaaa != None && IsV6Client(peer) {
          slot := Held(policy.v6Aaaa);
        }
      }
      handled, resp := false, Unset;
    }

    /** The decision RespondBegin takes in the current state, for the given outcome of the A lookup. */
    ghost function PendingAction(lookup: IscResult): Action
      reads this
      requires slot.Held?
    {
      RespondBeginAction(slot.mode, wantDnssec, sigrdataset.Present?, qtype, recursing, lookup,
                         authoritative, recursionOk)
    }

    /**
      filter_respond_begin.  `lookup` is the outcome of the local lookup for an
      A under the answered name, `recurseResult` that of launching the
      sub-lookup and `doneResult` that of completing the query; each is used
      only when the call is made, and each call made is recorded.
     */
    method RespondBegin(lookup: IscResult, recurseResult: IscResult, doneResult: IscResult)
      returns (handled: bool, resp: IscResult)
      requires Valid() && slot.Held?
      requires qtype == A && recursing ==> fname.Present?
      modifies this`rdataset, this`sigrdataset, this`recursing, this`filtered, this`queryRecursing,
               this`hostCalls, answer
      ensures var act := old(PendingAction(lookup));
              handled == (act == ResumeAfterA) &&
              resp == (match act
                       case Pass => Unset
                       case HideAaaa => lookup
                       case ShowAaaa => lookup
                       case RecurseForA => recurseResult
                       case ResumeAfterA => doneResult)
      ensures var act := old(PendingAction(lookup));
              hostCalls == old(hostCalls) +
                (match act
                 case Pass => []
                 case HideAaaa => [FindA]
                 case ShowAaaa => [FindA]
                 case RecurseForA => [FindA, QueryRecurse(A, qname)]
                 case ResumeAfterA => [QueryDone])
      // the answered set and its signature
      ensures var act := old(PendingAction(lookup));
              (act == HideAaaa ==> rdataset == old(rdataset).(rendered := true) &&
                                   sigrdataset == SetSigRendered(old(sigrdataset), true)) &&
              (act == ShowAaaa ==> rdataset == old(rdataset).(rendered := false) &&
                                   sigrdataset == SetSigRendered(old(sigrdataset), false)) &&
              (act != HideAaaa && act != ShowAaaa ==> rdataset == old(rdataset) &&
                                                      sigrdataset == old(sigrdataset))
      // the flags
      ensures var act := old(PendingAction(lookup));
              filtered == (old(filtered) || act == HideAaaa) &&
              recursing == (match act
                            case RecurseForA => old(recursing) || recurseResult == Success
                            case ResumeAfterA => false
                            case _ => old(recursing)) &&
              queryRecursing == (old(queryRecursing) || (act == RecurseForA && recurseResult == Success))
      // the answer section
      ensures var act := old(PendingAction(lookup));
              answer[..] == if act == ResumeAfterA then HideAaaaUnder(old(answer[..]), fname.value)
                            else old(answer[..])
    {
      ghost var act := PendingAction(lookup);
      var mode := slot.mode;
      var result := Unset;
      if mode != BreakDnssec && (mode != Filter || (wantDnssec && sigrdataset.Present?)) {
        return false, result;
      }

      if qtype == Aaaa {
        hostCalls := hostCalls + [FindA];
        result := lookup;
        if result == Success {
          SetAnsweredRendered(true);
          filtered := true;
        } else if authoritative || !recursionOk || (result != Delegation && result != NotFound) {
          SetAnsweredRendered(false);
        } else {
          hostCalls := hostCalls + [QueryRecurse(A, qname)];
          result := recurseResult;
          if result == Success {
            recursing := true;
            queryRecursing := true;
          }
        }
      } else if qtype == A && recursing {
        HideAaaaInAnswer(fname.value);
        recursing := false;
        hostCalls := hostCalls + [QueryDone];
        result := doneResult;
        return true, result;
      }
      return false, result;
    }

    /** Sets the RENDERED bit of the answered set and of its signature set, if any, to `on`. */
    method SetAnsweredRendered(on: bool)
      modifies this`rdataset, this`sigrdataset
      ensures rdataset == old(rdataset).(rendered := on)
      ensures sigrdataset == SetSigRendered(old(sigrdataset), on)
    {
      rdataset := rdataset.(rendered := on);
      if sigrdataset.Present? {
        sigrdataset := Present(sigrdataset.value.(rendered := on));
      }
    }

    /**
      The resumption step of filter_respond_begin: look up the AAAA and then
      the RRSIG(AAAA) under `owner` in the answer section and hide each found.
     */
    method HideAaaaInAnswer(owner: DnsName)
      modifies answer
      ensures answer[..] == HideAaaaUnder(old(answer[..]), owner)
    {
      var i := IndexOfName(answer[..], owner);
      if i.Present? && FindType(answer[i.value], Aaaa).Present? {
        answer[i.value] := MarkRendered(answer[i.value], Aaaa);
      }
      if i.Present? && FindType(answer[i.value], Rrsig(Aaaa)).Present? {
        answer[i.value] := MarkRendered(answer[i.value], Rrsig(Aaaa));
      }
    }

    /** The name filter_respond_any_found looks up: the found name if there is one, else the target name. */
    function AnyOwner(): (r: DnsName)
      reads this
      ensures fname.Present? ==> r == fname.value
      ensures fname.Absent? ==> r == tname
    {
      if fname.Present? then fname.value else tname
    }

    /** filter_respond_any_found: for an ANY query, hide the AAAA of the answer name when an A is present or assumed. */
    method RespondAnyFound() returns (handled: bool, resp: IscResult)
      requires slot.Held?
      modifies answer
      ensures answer[..] == FilterAnyAnswer(old(answer[..]), AnyOwner(), authoritative, slot.mode, wantDnssec)
      ensures !handled && resp == Unset
    {
      handled, resp := false, Unset;
      if slot.mode == None {
        return;
      }
      var found := IndexOfName(answer[..], AnyOwner());
      var haveA := true;
      if authoritative && found.Present? {
        if FindType(answer[found.value], A).Absent? {
          haveA := false;
        }
      }
      var aaaa, aaaaSig := Absent, Absent;
      if found.Present? {
        aaaa := FindType(answer[found.value], Aaaa);
        aaaaSig := FindType(answer[found.value], Rrsig(Aaaa));
      }
      if haveA && aaaa.Present? && (aaaaSig.Absent? || !wantDnssec || slot.mode == BreakDnssec) {
        var k := found.value;
        answer[k] := MarkRendered(answer[k], Aaaa);
        if aaaaSig.Present? {
          answer[k] := MarkRendered(answer[k], Rrsig(Aaaa));
        }
      }
    }

    /**
      filter_query_done_send: walk the additional section hiding each AAAA
      that stands beside an A, then, if FILTERED is set, walk the authority
      section hiding every NS and RRSIG(NS).  Under mode NONE it does nothing.
     */
    method DoneSend() returns (handled: bool, resp: IscResult)
      requires Valid() && slot.Held?
      modifies additional, authority
      ensures additional[..] == if slot.mode == None then old(additional[..])
                                else SweepAdditional(old(additional[..]), slot.mode, wantDnssec)
      ensures authority[..] == if slot.mode != None && filtered then SweepAuthority(old(authority[..]))
                               else old(authority[..])
      ensures !handled && resp == Unset
    {
      handled, resp := false, Unset;
      var mode := slot.mode;
      if mode == None {
        return;
      }

      SweepAdditionalSection(mode);
      if filtered {
        SweepAuthoritySection();
      }
    }

    /** The walk of the additional section in filter_query_done_send. */
    method SweepAdditionalSection(mode: Mode)
      modifies additional
      ensures additional[..] == SweepAdditional(old(additional[..]), mode, wantDnssec)
    {
      var dnssec := wantDnssec;
      var cursor := 0;
      while cursor < additional.Length
        invariant 0 <= cursor <= additional.Length
        invariant forall k :: 0 <= k < cursor ==>
                    additional[k] == FilterAdditionalName(old(additional[k]), mode, dnssec)
        invariant forall k :: cursor <= k < additional.Length ==> additional[k] == old(additional[k])
      {
        var i := cursor;
        cursor := cursor + 1;
        var name := additional[i];
        if FindType(name, A).Absent? {
          continue;
        }
        var aaaa := FindType(name, Aaaa);
        if aaaa.Absent? {
          continue;
        }
        var aaaaSig := FindType(name, Rrsig(Aaaa));
        if aaaaSig.Absent? || !dnssec || mode == BreakDnssec {
          additional[i] := MarkRendered(additional[i], Aaaa);
          if aaaaSig.Present? {
            additional[i] := MarkRendered(additional[i], Rrsig(Aaaa));
          }
        }
      }
    }

    /** The walk of the authority section in filter_query_done_send. */
    method SweepAuthoritySection()
      modifies authority
      ensures authority[..] == SweepAuthority(old(authority[..]))
    {
      var cursor := 0;
      while cursor < authority.Length
        invariant 0 <= cursor <= authority.Length
        invariant forall k :: 0 <= k < cursor ==> authority[k] == HideNsAndSig(old(authority[k]))
        invariant forall k :: cursor <= k < authority.Length ==> authority[k] == old(authority[k])
      {
        var name := authority[cursor];
        if FindType(name, Ns).Present? {
          authority[cursor] := MarkRendered(authority[cursor], Ns);
        }
        if FindType(name, Rrsig(Ns)).Present? {
          authority[cursor] := MarkRendered(authority[cursor], Rrsig(Ns));
        }
        cursor := cursor + 1;
      }
    }

    /** filter_qctx_destroy: return the slot to the pool, once; an empty slot stays empty. */
    method Destroy() returns (handled: bool, resp: IscResult)
      modifies this`slot, this`hostCalls
      ensures slot == Empty
      ensures hostCalls == old(hostCalls) + (if old(slot).Held? then [MempoolPut] else [])
      ensures !handled && resp == Unset
    {
      if slot.Held? {
        hostCalls := hostCalls + [MempoolPut];
        slot := Empty;
      }
      handled, resp := false, Unset;
    }
  }
}
