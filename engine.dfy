/** CheckLinks in lib.go: extraction, then the domain classifier, then the
    liveness prober, all over one slice of links. */
module Engine {
  import opened Wrappers
  import opened Links
  import opened DomainPolicy
  import opened Liveness
  import opened ConfigValidation

  /** What extractsLinks yields for a list of PDF files: an error, or the
      URLs of their link annotations, in the order extraction returns them. */
  datatype Extraction = ExtractionFailed(cause: string) | Extracted(urls: seq<string>)

  /** The one error CheckLinks returns: "error extracting links: ...". */
  datatype CheckError = ExtractError(cause: string)

  /** CheckLinks.  The links come out one per extracted URL, in order; each
      carries the domain verdict for its URL and the outcome of its own
      request, probed whatever its validity.  An extraction error is the
      only failure, and it yields no links. */
  method CheckLinks(config: Config, extract: seq<string> -> Extraction, parse: string -> UrlParse,
                    outcomes: seq<ProbeOutcome>)
    returns (result: Result<seq<Link>, CheckError>)
    requires extract(config.pdfs).Extracted? ==> |outcomes| == |extract(config.pdfs).urls|
    ensures extract(config.pdfs).ExtractionFailed? ==>
      result == Failure(ExtractError(extract(config.pdfs).cause))
    ensures extract(config.pdfs).Extracted? ==>
      var urls := extract(config.pdfs).urls;
      && result.Success? && |result.value| == |urls|
      && forall k :: 0 <= k < |urls| ==>
           result.value[k] == Link(urls[k], Verdict(urls[k], config.whitelistDomains, config.blacklistDomains, parse),
                                   Live(outcomes[k]))
  {
    var extraction := extract(config.pdfs);
    if extraction.ExtractionFailed? {
      return Failure(ExtractError(extraction.cause));
    }
    var urls := extraction.urls;
    var links := new Link[|urls|](k requires 0 <= k < |urls| => Unchecked(urls[k]));
    ValidateLinks(links, config.whitelistDomains, config.blacklistDomains, parse);
    LivenessCheck(links, outcomes);
    return Success(links[..]);
  }

  /** The two passes write disjoint fields, so their order does not matter:
      validity and liveness are independent. */
  lemma PassesCommute(links: seq<Link>, whitelist: seq<string>, blacklist: seq<string>,
                      parse: string -> UrlParse, outcomes: seq<ProbeOutcome>)
    requires |outcomes| == |links|
    ensures ProbedLinks(ValidatedLinks(links, whitelist, blacklist, parse), outcomes)
         == ValidatedLinks(ProbedLinks(links, outcomes), whitelist, blacklist, parse)
  {
  }
}
