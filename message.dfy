/**
  The parts of a DNS response message that the AAAA filter reads and writes.

  A section of the message is a sequence of owner names; under each name the
  message holds at most one record set per type, and a signature set is keyed
  by the type it covers (`Rrsig(Aaaa)` is "RRSIG covering AAAA").  The only
  attribute of a record set the filter touches is the RENDERED bit: a set with
  that bit on is taken to be written out already, so the encoder skips it.

  `FindType`, `IndexOfName` and `MarkRendered` stand for the message library's
  lookups (find a type under a name, find a name in a section) and for the
  in-place update `set->attributes |= DNS_RDATASETATTR_RENDERED`.

  Owner names are written in their textual form, and two names are the same
  name when they agree but for the case of ASCII letters, as DNS names are
  compared.
 */
module Message {

  datatype Option<T> = Absent | Present(value: T)

  /** Record types the filter distinguishes; every other type is `Other`. */
  datatype RdataType = A | Aaaa | Ns | Any | Other | Rrsig(covers: RdataType)

  /** A record set, reduced to its RENDERED attribute. */
  datatype RdataSet = RdataSet(rendered: bool)

  type DnsName = string

  /** An ASCII letter folded to lower case; every other character is itself. */
  function LowerAscii(c: char): (r: char)
    ensures 'A' <= c <= 'Z' ==> r as int == c as int + 32
    ensures !('A' <= c <= 'Z') ==> r == c
    ensures !('A' <= r <= 'Z')
  {
    if 'A' <= c <= 'Z' then (c as int + 32) as char else c
  }

  /** Two owner names are the same DNS name: equal but for the case of ASCII letters. */
  predicate SameName(a: DnsName, b: DnsName)
  {
    |a| == |b| && forall i :: 0 <= i < |a| ==> LowerAscii(a[i]) == LowerAscii(b[i])
  }

  /** Name comparison is an equivalence that ignores the case of letters and nothing else. */
  lemma SameNameIsCaseBlindEquivalence(a: DnsName, b: DnsName, c: DnsName)
    ensures SameName(a, a)
    ensures SameName(a, b) ==> SameName(b, a)
    ensures SameName(a, b) && SameName(b, c) ==> SameName(a, c)
    ensures SameName("Example.", "example.") && !SameName("example.", "exampl.")
  {
    assert LowerAscii('E') == LowerAscii('e');
  }

  /** An owner name in a message section and the record sets under it. */
  datatype Name = Name(owner: DnsName, rdatasets: map<RdataType, RdataSet>)

  /** dns_message_findtype: the set of type t under n, if there is one. */
  function FindType(n: Name, t: RdataType): (r: Option<RdataSet>)
    ensures r.Present? <==> t in n.rdatasets
    ensures r.Present? ==> r.value == n.rdatasets[t]
  {
    if t in n.rdatasets then Present(n.rdatasets[t]) else Absent
  }

  /** Sets the RENDERED bit of the set of type t under n, when n has one; nothing else changes. */
  function MarkRendered(n: Name, t: RdataType): (r: Name)
    ensures r.owner == n.owner && r.rdatasets.Keys == n.rdatasets.Keys
    ensures t in n.rdatasets ==> r.rdatasets[t].rendered
    ensures forall u :: u in n.rdatasets && u != t ==> r.rdatasets[u] == n.rdatasets[u]
  {
    if t in n.rdatasets then n.(rdatasets := n.rdatasets[t := n.rdatasets[t].(rendered := true)])
    else n
  }

  /** dns_message_findname: the position of the first name in section s that is the same name as `owner`. */
  function IndexOfName(s: seq<Name>, owner: DnsName): (r: Option<nat>)
    ensures r.Absent? <==> forall k :: 0 <= k < |s| ==> !SameName(s[k].owner, owner)
    ensures r.Present? ==> r.value < |s| && SameName(s[r.value].owner, owner)
    ensures r.Present? ==> forall k :: 0 <= k < r.value ==> !SameName(s[k].owner, owner)
  {
    if s == [] then Absent
    else if SameName(s[0].owner, owner) then Present(0)
    else match IndexOfName(s[1..], owner)
      case Absent => Absent
      case Present(i) => Present(i + 1)
  }
}
