/** The liveness prober: livenesscheck in lib.go, which issues one GET per
    link and records whether it ended in 200 OK. */
module Liveness {
  import opened Links

  /** http.StatusOK */
  const StatusOK: int := 200

  /** What one http.Get returns, as far as livenesscheck reads it: an error
      (connection refused, DNS failure, malformed URL, too many redirects),
      or the status code of the final response once the client has followed
      the redirects. */
  datatype ProbeOutcome = RequestFailed | Responded(statusCode: int)

  /** A link is live when its request returned without error and the final
      status is exactly 200. */
  predicate Live(outcome: ProbeOutcome) {
    outcome.Responded? && outcome.statusCode == StatusOK
  }

  /** The links after livenesscheck, with `outcomes[k]` the answer to the
      request for `links[k]`: same length and order, only `isLive` replaced,
      and each link's flag decided by its own outcome alone. */
  function ProbedLinks(links: seq<Link>, outcomes: seq<ProbeOutcome>): (r: seq<Link>)
    requires |outcomes| == |links|
    ensures |r| == |links|
    ensures forall k :: 0 <= k < |links| ==> r[k] == links[k].(isLive := Live(outcomes[k]))
  {
    if links == [] then []
    else [links[0].(isLive := Live(outcomes[0]))] + ProbedLinks(links[1..], outcomes[1..])
  }

  /** livenesscheck, in place: one request per link, in order; a failed
      request marks that link dead and the loop goes on with the next. */
  method LivenessCheck(links: array<Link>, outcomes: seq<ProbeOutcome>)
    requires |outcomes| == links.Length
    modifies links
    ensures links[..] == ProbedLinks(old(links[..]), outcomes)
  {
    ghost var before := links[..];
    for i := 0 to links.Length
      invariant forall k :: 0 <= k < i ==> links[k] == before[k].(isLive := Live(outcomes[k]))
      invariant forall k :: i <= k < links.Length ==> links[k] == before[k]
    {
      var resp := outcomes[i];
      if resp.RequestFailed? {
        links[i] := links[i].(isLive := false);
        continue;
      }
      links[i] := links[i].(isLive := resp.statusCode == StatusOK);
    }
    ProbedLinksAt(links[..], before, outcomes);
  }

  /** Pointwise agreement with ProbedLinks is equality with it. */
  lemma ProbedLinksAt(after: seq<Link>, before: seq<Link>, outcomes: seq<ProbeOutcome>)
    requires |after| == |before| == |outcomes|
    requires forall k :: 0 <= k < |before| ==> after[k] == before[k].(isLive := Live(outcomes[k]))
    ensures after == ProbedLinks(before, outcomes)
  {
  }

  /** The prober's test: /dead answers 404, /live 200, /redirect a 302 to
      /live (so 200 once followed), /access-denied 403. */
  lemma ProbeTable(links: seq<Link>)
    requires |links| == 4
    ensures var r := ProbedLinks(links, [Responded(404), Responded(200), Responded(200), Responded(403)]);
            !r[0].isLive && r[1].isLive && r[2].isLive && !r[3].isLive
  {
  }

  /** A request that fails (the error branch of livenesscheck) marks its link
      dead, whatever the link's flags were, and leaves its other fields. */
  lemma RequestFailureIsDead(links: seq<Link>, outcomes: seq<ProbeOutcome>, j: nat)
    requires |outcomes| == |links| && j < |links| && outcomes[j].RequestFailed?
    ensures ProbedLinks(links, outcomes)[j] == links[j].(isLive := false)
  {
  }

  /** Each link's flag depends on its own outcome only: changing the answer
      to request `j` can change link `j` and no other. */
  lemma ProbesIndependent(links: seq<Link>, outcomes: seq<ProbeOutcome>, j: nat, other: ProbeOutcome)
    requires |outcomes| == |links| && j < |links|
    ensures var r := ProbedLinks(links, outcomes);
            var r' := ProbedLinks(links, outcomes[j := other]);
            forall k :: 0 <= k < |links| && k != j ==> r'[k] == r[k]
  {
  }

  /** Probing twice with the same answers changes nothing the second time. */
  lemma ProbeIdempotent(links: seq<Link>, outcomes: seq<ProbeOutcome>)
    requires |outcomes| == |links|
    ensures ProbedLinks(ProbedLinks(links, outcomes), outcomes) == ProbedLinks(links, outcomes)
  {
  }
}
