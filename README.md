# filter-aaaa and serial number arithmetic, modelled in Dafny

This project models two parts of BIND 9.

**The filter-aaaa query plugin** (`bin/hooks/filter-aaaa.c`). For each query,
the plugin decides whether AAAA record sets are hidden from the response when
the same name also has an A. A set is hidden by setting its RENDERED
attribute, so the encoder skips it. The plugin hooks six points of query
processing:

- Query context initialisation takes a slot from a memory pool and sets it to NONE.
- The start of response preparation fixes the effective mode. The inputs are
  the two settings `filter-aaaa-on-v4` and `filter-aaaa-on-v6`, the client's
  address family and the verdict of the `filter-aaaa` ACL.
- The start of the response handles explicit AAAA queries. It hides, shows or
  launches a sub-lookup for the A. It also handles the resumption after that
  sub-lookup, which hides the AAAA after the fact.
- The ANY answer hides the AAAA when an A is present or assumed.
- The send of the response walks the additional section (AAAA beside A). Then,
  if FILTERED is set, it walks the authority section (NS and RRSIG(NS)).
- Query context destruction returns the slot to the pool, at most once.

**Serial number arithmetic** (`lib/isc/serial.c`) is the six 32-bit
comparisons of section 3.2 of RFC 1982.

Files:

- `serial.dfy` (module `Serial`): the six comparisons on 32-bit unsigned values. The
  unsigned wrap-around, the signed cast and the `^ 0x80000000` are written out.
  Each comparison is proved equal to the RFC's definition.
- `message.dfy` (module `Message`): record types, record sets reduced to their RENDERED
  bit, owner names, and the message library's lookups `FindType` and `IndexOfName`.
- `filter_aaaa.dfy` (module `FilterAaaa`): the decisions as functions, with the
  properties they promise. The class `QueryCtx` holds the state the hooks update
  in place: the slot, the query, the client flags and the three sections as
  arrays. It has one method per hook, and each method is proved against those
  functions.
- `scenarios.dfy` (module `FilterAaaaScenarios`): whole queries driven through the
  hooks. They use only the hooks' contracts.

These calls the plugin makes to code outside itself are recorded in
`QueryCtx.hostCalls`: `isc_mempool_get`, `isc_mempool_put`,
`ns_client_checkaclsilent`, the `dns_db_findrdataset` lookup for the A,
`query_recurse` and `query_done`. Their outcomes are method parameters. This
makes "the ACL is not consulted", "exactly one sub-lookup" and "released once"
statements about the new state. The message-library lookups
(`dns_message_findname`, `dns_message_findtype`, `dns_message_firstname`,
`dns_message_nextname`) are modelled as the functions `IndexOfName` and
`FindType` and the section walks, and are not recorded.
`ns_client_newrdataset`, `ns_client_putrdataset` and
`dns_rdataset_disassociate` are not recorded either (see "Left out").

## Model

| member | source | states |
|---|---|---|
| `Serial.Lt` | lib/isc/serial.c:21-29 | a is below b exactly as RFC 1982 section 3.2 defines it; false for the undefined pair |
| `Serial.Gt` | lib/isc/serial.c:31-34 | a is above b exactly as RFC 1982 section 3.2 defines it; false for the undefined pair |
| `Serial.Le` | lib/isc/serial.c:36-39 | equal, or below in the RFC sense |
| `Serial.Ge` | lib/isc/serial.c:41-44 | equal, or above in the RFC sense |
| `Serial.Eq` | lib/isc/serial.c:46-49 | true exactly when the pair is neither below, above nor antipodal |
| `Serial.Ne` | lib/isc/serial.c:51-54 | the complement of eq |
| `Serial.LtIsGtSwapped` | lib/isc/serial.c:21-34 | lt(a, b) == gt(b, a) for all a, b |
| `Serial.AntipodalIncomparable` | lib/isc/serial.c:26-34 | for a == b ^ 0x80000000 neither lt nor gt holds, in either order |
| `Serial.LtGtStrict` | lib/isc/serial.c:21-34 | lt and gt are asymmetric and irreflexive |
| `Serial.LeGeWidenByEquality` | lib/isc/serial.c:36-44 | le is (equal or lt), ge is (equal or gt); both are reflexive |
| `Serial.Trichotomy` | lib/isc/serial.c:21-49 | outside the antipodal pair exactly one of eq, lt, gt holds |
| `Serial.EqNeComplement` | lib/isc/serial.c:46-54 | eq and ne are complements and agree with integer equality |
| `Message.FindType` | bin/hooks/filter-aaaa.c:657-669 | finds the set of a type under a name exactly when the name has one |
| `Message.MarkRendered` | bin/hooks/filter-aaaa.c:674-678 | sets RENDERED on that one set if present; every other set and the owner are unchanged |
| `Message.LowerAscii` | bin/hooks/filter-aaaa.c:539-551 | folds exactly the ASCII capitals to lower case, the fold used when owner names are compared; the result is never a capital |
| `Message.SameNameIsCaseBlindEquivalence` | bin/hooks/filter-aaaa.c:539-551 | owner-name comparison is reflexive, symmetric and transitive, ignores the case of letters and nothing else |
| `Message.IndexOfName` | bin/hooks/filter-aaaa.c:539-542 | the first name in the section that is the same DNS name as the owner (case ignored), or absent exactly when no name is |
| `FilterAaaa.IsV4Client` | bin/hooks/filter-aaaa.c:360-368 | true for every IPv4 peer, for an IPv6 peer exactly when its address is IPv4-mapped, and never for another family |
| `FilterAaaa.IsV6Client` | bin/hooks/filter-aaaa.c:360-379 | never true together with is_v4_client; for an IPv6 peer exactly one of the two holds; false for other families |
| `FilterAaaa.ResolveMode` | bin/hooks/filter-aaaa.c:416-430 | both settings NONE or no ACL match leave the mode as it was. With a match, an IPv4 or v4-mapped client gets the v4 setting if that is not NONE, and a pure IPv6 client gets the v6 setting if that is not NONE. The mode changes only in those two cases, so a matched client outside both keeps it |
| `FilterAaaa.ResolveModeIdempotent` | bin/hooks/filter-aaaa.c:416-430 | resolving again from the resolved mode gives the same mode |
| `FilterAaaa.RespondBypassed` | bin/hooks/filter-aaaa.c:450-457 | the explicit path does nothing exactly for NONE, or for FILTER with DNSSEC wanted and a signature present; never under BREAK_DNSSEC |
| `FilterAaaa.SameDnssecRule` | bin/hooks/filter-aaaa.c:612-614 | under a non-NONE mode the ANY/additional condition is the negation of the explicit path's bypass test |
| `FilterAaaa.RespondBeginAction` | bin/hooks/filter-aaaa.c:450-534 | the decision table: hide iff not bypassed, AAAA query and the A found. Recurse iff not bypassed, AAAA query, delegation or not-found, not authoritative and recursion allowed. Show in every other failed-lookup case. Resume iff not bypassed, A query and RECURSING set |
| `FilterAaaa.SetSigRendered` | bin/hooks/filter-aaaa.c:489-494 | a present signature set gets the given RENDERED value; an absent one stays absent |
| `FilterAaaa.HideAaaaAndSig` | bin/hooks/filter-aaaa.c:616-619 | AAAA and RRSIG(AAAA), where present, become rendered; every other set is unchanged |
| `FilterAaaa.HideAaaaUnder` | bin/hooks/filter-aaaa.c:539-554 | only the first answer name that is the owner (case ignored) changes; it keeps its owner and types, and its AAAA and RRSIG(AAAA) become rendered |
| `FilterAaaa.HideAaaaUnderKeepsOtherSets` | bin/hooks/filter-aaaa.c:539-554 | under the name the resumption finds, every set other than the AAAA and the RRSIG(AAAA) is unchanged |
| `FilterAaaa.FilterAnyName` | bin/hooks/filter-aaaa.c:593-620 | AAAA and its signature become rendered exactly when A is present or the answer is not authoritative, AAAA is present, and the signature is absent, DNSSEC is not wanted or the mode is BREAK_DNSSEC; other sets unchanged |
| `FilterAaaa.FilterAnyAnswer` | bin/hooks/filter-aaaa.c:582-620 | mode NONE or an absent name leaves the answer as it was; otherwise only the answer name changes, by the ANY rule |
| `FilterAaaa.FilterAdditionalName` | bin/hooks/filter-aaaa.c:657-679 | a name without both A and AAAA is untouched; otherwise the ANY rule for an authoritative answer applies |
| `FilterAaaa.FilterAdditionalNameIdempotent` | bin/hooks/filter-aaaa.c:657-679 | applying the additional rule twice equals applying it once |
| `FilterAaaa.SweepAdditional` | bin/hooks/filter-aaaa.c:643-680 | the section keeps its length and each name is rewritten by the additional rule alone |
| `FilterAaaa.SweepAdditionalIdempotent` | bin/hooks/filter-aaaa.c:643-680 | sweeping the additional section twice equals sweeping it once |
| `FilterAaaa.HideNsAndSig` | bin/hooks/filter-aaaa.c:693-704 | NS and RRSIG(NS), where present, become rendered; every other set is unchanged |
| `FilterAaaa.SweepAuthority` | bin/hooks/filter-aaaa.c:682-709 | the section keeps its length and every name has its NS and RRSIG(NS) hidden |
| `FilterAaaa.AuthorityHiddenIffFiltered` | bin/hooks/filter-aaaa.c:638-709 | after the send hook each NS and RRSIG(NS) is rendered iff (mode not NONE and FILTERED) or it was already; all other sets unchanged |
| `FilterAaaa.QueryCtx.Initialize` | bin/hooks/filter-aaaa.c:391-402 | takes one slot from the pool and sets it to NONE; flags are not touched |
| `FilterAaaa.QueryCtx.PrepResponseBegin` | bin/hooks/filter-aaaa.c:409-434 | the slot holds `ResolveMode` of its old value; the ACL is consulted once if a setting is not NONE, otherwise never |
| `FilterAaaa.QueryCtx.RespondBegin` | bin/hooks/filter-aaaa.c:443-567 | the whole new state under each action. Pass: nothing changes. Hide: AAAA and sig rendered, FILTERED set. Show: both cleared, flags unchanged. Recurse: exactly one sub-lookup, RECURSING set only on its success, AAAA untouched. Resume: AAAA/sig under fname hidden, RECURSING cleared, query_done called, hook reports completion |
| `FilterAaaa.QueryCtx.SetAnsweredRendered` | bin/hooks/filter-aaaa.c:489-507 | the answered set and its signature set, if any, get the given RENDERED value; nothing else changes |
| `FilterAaaa.QueryCtx.HideAaaaInAnswer` | bin/hooks/filter-aaaa.c:536-554 | the answer section becomes `HideAaaaUnder` of its old contents |
| `FilterAaaa.QueryCtx.AnyOwner` | bin/hooks/filter-aaaa.c:587-591 | the name the ANY path looks up is fname when there is one, otherwise tname |
| `FilterAaaa.QueryCtx.RespondAnyFound` | bin/hooks/filter-aaaa.c:572-624 | the answer section becomes `FilterAnyAnswer` of its old contents; no flag or call |
| `FilterAaaa.QueryCtx.DoneSend` | bin/hooks/filter-aaaa.c:631-713 | mode NONE changes nothing. Otherwise the additional section becomes its sweep, and the authority section its sweep iff FILTERED is set |
| `FilterAaaa.QueryCtx.SweepAdditionalSection` | bin/hooks/filter-aaaa.c:643-680 | the cursor walk leaves the additional section equal to `SweepAdditional` of its old contents |
| `FilterAaaa.QueryCtx.SweepAuthoritySection` | bin/hooks/filter-aaaa.c:682-709 | the cursor walk leaves the authority section equal to `SweepAuthority` of its old contents |
| `FilterAaaa.QueryCtx.Destroy` | bin/hooks/filter-aaaa.c:718-731 | the slot ends empty; the pool gets it back only if it was held, so a second call releases nothing |
| `FilterAaaaScenarios.FilteringOffIsNoOp` | bin/hooks/filter-aaaa.c:416-430 | with both settings NONE a whole query changes no set, no flag, and makes no call but the pool's |
| `FilterAaaaScenarios.V6ClientHidesCachedAaaa` | bin/hooks/filter-aaaa.c:486-497 | pure IPv6 client, FILTER on v6, A cached: the start of the response hides the AAAA and sets FILTERED, after one ACL check and one lookup |
| `FilterAaaaScenarios.V6ClientWithCachedA` | bin/hooks/filter-aaaa.c:682-709 | the same query to its end: the authority NS is hidden too and the slot is given back |
| `FilterAaaaScenarios.ResumptionHidesAaaa` | bin/hooks/filter-aaaa.c:536-554 | for a one-name answer whose owner is the looked-up name up to case, the resumption hides its AAAA |
| `FilterAaaaScenarios.UpperCaseOwnerIsFound` | bin/hooks/filter-aaaa.c:539-551 | an answer owner "EXAMPLE." is found for the name "example." and its AAAA hidden |
| `FilterAaaaScenarios.V6ClientLaunchesSubLookup` | bin/hooks/filter-aaaa.c:511-527 | A not cached, recursion allowed: exactly one sub-lookup for the A, RECURSING set, the AAAA left visible |
| `FilterAaaaScenarios.V6ClientResumesAfterA` | bin/hooks/filter-aaaa.c:511-562 | after the sub-lookup the query resumes: the AAAA in the answer is hidden, RECURSING is cleared and query_done is the only further call |

## Left out

- Configuration parsing (`parse_parameters` and the grammar tables) is not modelled: the two settings are the `Policy` input.
- `hook_register`, `hook_destroy` and `hook_version` are not modelled: they are plugin ABI, library set-up, logging, hook-table wiring and pool creation.
- ACL matching (`ns_client_checkaclsilent`) is not modelled. Its verdict is the input `aclMatches`, and the call is recorded as `CheckAcl`.
- The database lookup for the A, `query_recurse` and `query_done` are foreign calls. They are not modelled; their outcomes are inputs, and each call made is recorded.
- The temporary record set the A lookup fills, and its release, are not modelled: only the lookup's outcome is used. `ns_client_newrdataset`, `ns_client_putrdataset` and `dns_rdataset_disassociate` are therefore neither modelled nor recorded.
- Socket addresses are reduced to a family and an IPv4-mapped bit. The bit tests on the address are not modelled.
- The memory pool is only the slot being held or empty, and the get/put calls. `isc_mempool_get` returning NULL is not modelled: the source writes through the result without a check.
- Record sets carry only the RENDERED attribute. The other attribute bits are untouched by every operation, and records and TTLs do not matter to the plugin.
- The per-client flag word is two booleans, RECURSING and FILTERED. The word belongs to this module's index alone.
- Concurrency between queries and within the pool is not modelled.
- Owner names are their textual form. Two names are the same when they agree but for ASCII case; escape sequences and label structure are not modelled.
- `IndexOfName` returns the first matching name. A message section holds each owner name once, so this is the name `dns_message_findname` returns; `dns_message_findname` itself is not part of this model.
- `lib/isc/include/isc/string.h` only declares `strlcpy`/`strlcat` wrappers without bodies. It is not part of this model.
- `Serial`: the exclusive-or with `0x80000000` is written as adding or subtracting 2^31, which is the same value on 32-bit words. A bit-vector model was not used.

Behaviour of `bin/hooks/filter-aaaa.c` worth noting:

- The resumption step sits behind the same bypass test as the AAAA path, so under FILTER a DNSSEC client whose A answer is signed does not resume through the hook.
- Nothing in the AAAA path checks RECURSING before launching a sub-lookup.
- Initialisation resets the slot but not the per-client flags.
- Pool exhaustion is not reported as an error.
