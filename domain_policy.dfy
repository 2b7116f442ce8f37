/** The domain classifier: validateLinks in lib.go, which sets each link's
    `isValid` from a whitelist and a blacklist of domain suffixes. */
module DomainPolicy {
  import opened Links

  /** What url.Parse yields, reduced to what the classifier reads: a parse
      error, or the Host field of the parsed URL (which may be empty). */
  datatype UrlParse = ParseError | Parsed(host: string)

  /** strings.HasSuffix: a plain trailing-character match with no notion of
      domain labels. */
  predicate HasSuffix(s: string, suffix: string) {
    |suffix| <= |s| && s[|s| - |suffix|..] == suffix
  }

  /** Some entry of `domains` is a suffix of `host`. */
  predicate MatchesAny(host: string, domains: seq<string>) {
    exists d :: d in domains && HasSuffix(host, d)
  }

  /** The string the classifier matches against: the parsed Host, or the
      raw URL when Host is empty (a bare "a.com" parses as a path). */
  function MatchHost(url: string, host: string): string {
    if host == "" then url else host
  }

  /** The value validateLinks leaves in IsValid for a link with this URL. */
  function Verdict(url: string, whitelist: seq<string>, blacklist: seq<string>,
                   parse: string -> UrlParse): bool
  {
    if |whitelist| > 0 && |blacklist| > 0 then false
    else if |whitelist| == 0 && |blacklist| == 0 then true
    else match parse(url)
      case ParseError => false
      case Parsed(host) =>
        var whitelistMode := |whitelist| > 0;
        whitelistMode == MatchesAny(MatchHost(url, host), if whitelistMode then whitelist else blacklist)
  }

  /** The links after validateLinks: same length and order, every field but
      `isValid` kept, and `isValid` the verdict for the link's own URL. */
  function ValidatedLinks(links: seq<Link>, whitelist: seq<string>, blacklist: seq<string>,
                          parse: string -> UrlParse): (r: seq<Link>)
    ensures |r| == |links|
    ensures forall k :: 0 <= k < |links| ==>
      r[k] == links[k].(isValid := Verdict(links[k].url, whitelist, blacklist, parse))
  {
    if links == [] then []
    else [links[0].(isValid := Verdict(links[0].url, whitelist, blacklist, parse))]
         + ValidatedLinks(links[1..], whitelist, blacklist, parse)
  }

  /** validateLinks, in place.  The conflict and no-policy cases set every
      flag at once; otherwise each URL is parsed and its host is compared
      with the active list, the first match flipping the default and ending
      the scan. */
  method ValidateLinks(links: array<Link>, whitelistDomains: seq<string>,
                       blacklistDomains: seq<string>, parse: string -> UrlParse)
    modifies links
    ensures links[..] == ValidatedLinks(old(links[..]), whitelistDomains, blacklistDomains, parse)
  {
    ghost var before := links[..];
    if |whitelistDomains| > 0 && |blacklistDomains| > 0 {
      for i := 0 to links.Length
        invariant forall k :: 0 <= k < i ==>
          links[k] == before[k].(isValid := Verdict(before[k].url, whitelistDomains, blacklistDomains, parse))
        invariant forall k :: i <= k < links.Length ==> links[k] == before[k]
      {
        links[i] := links[i].(isValid := false);
      }
      ValidatedLinksAt(links[..], before, whitelistDomains, blacklistDomains, parse);
      return;
    }

    if |whitelistDomains| == 0 && |blacklistDomains| == 0 {
      for i := 0 to links.Length
        invariant forall k :: 0 <= k < i ==>
          links[k] == before[k].(isValid := Verdict(before[k].url, whitelistDomains, blacklistDomains, parse))
        invariant forall k :: i <= k < links.Length ==> links[k] == before[k]
      {
        links[i] := links[i].(isValid := true);
      }
      ValidatedLinksAt(links[..], before, whitelistDomains, blacklistDomains, parse);
      return;
    }

    for i := 0 to links.Length
      invariant forall k :: 0 <= k < i ==>
        links[k] == before[k].(isValid := Verdict(before[k].url, whitelistDomains, blacklistDomains, parse))
      invariant forall k :: i <= k < links.Length ==> links[k] == before[k]
    {
      var parsed := parse(links[i].url);
      if parsed.ParseError? {
        links[i] := links[i].(isValid := false);
        continue;
      }
      var host := parsed.host;
      if host == "" {
        host := links[i].url;
      }

      var defaultIsValid := true;
      var defaultList := blacklistDomains;
      if |whitelistDomains| > 0 {
        defaultIsValid := false;
        defaultList := whitelistDomains;
      }
      ghost var outer := links[..];
      for j := 0 to |defaultList|
        invariant links[i].url == before[i].url && links[i].isLive == before[i].isLive
        invariant j > 0 ==> links[i].isValid == defaultIsValid
        invariant forall m :: 0 <= m < j ==> !HasSuffix(host, defaultList[m])
        invariant forall k :: 0 <= k < links.Length && k != i ==> links[k] == outer[k]
      {
        links[i] := links[i].(isValid := defaultIsValid);
        if HasSuffix(host, defaultList[j]) {
          links[i] := links[i].(isValid := !defaultIsValid);
          break;
        }
      }
      assert links[i] == before[i].(isValid := Verdict(before[i].url, whitelistDomains, blacklistDomains, parse));
    }
    ValidatedLinksAt(links[..], before, whitelistDomains, blacklistDomains, parse);
  }

  /** Pointwise agreement with ValidatedLinks is equality with it. */
  lemma ValidatedLinksAt(after: seq<Link>, before: seq<Link>, whitelist: seq<string>,
                         blacklist: seq<string>, parse: string -> UrlParse)
    requires |after| == |before|
    requires forall k :: 0 <= k < |before| ==>
      after[k] == before[k].(isValid := Verdict(before[k].url, whitelist, blacklist, parse))
    ensures after == ValidatedLinks(before, whitelist, blacklist, parse)
  {
  }

  /** Conflicting lists deny every link, whatever its URL. */
  lemma ConflictDeniesAll(links: seq<Link>, whitelist: seq<string>, blacklist: seq<string>,
                          parse: string -> UrlParse)
    requires |whitelist| > 0 && |blacklist| > 0
    ensures forall k :: 0 <= k < |links| ==> !ValidatedLinks(links, whitelist, blacklist, parse)[k].isValid
  {
  }

  /** With no list configured every link is allowed, whatever its URL. */
  lemma NoPolicyAllowsAll(links: seq<Link>, parse: string -> UrlParse)
    ensures forall k :: 0 <= k < |links| ==> ValidatedLinks(links, [], [], parse)[k].isValid
  {
  }

  /** Whitelist mode is default-deny: a link is valid exactly when some
      whitelist entry is a suffix of its host. */
  lemma WhitelistMode(url: string, whitelist: seq<string>, parse: string -> UrlParse)
    requires |whitelist| > 0 && parse(url).Parsed?
    ensures Verdict(url, whitelist, [], parse) <==> MatchesAny(MatchHost(url, parse(url).host), whitelist)
  {
  }

  /** Blacklist mode is default-allow: a link is valid exactly when no
      blacklist entry is a suffix of its host. */
  lemma BlacklistMode(url: string, blacklist: seq<string>, parse: string -> UrlParse)
    requires |blacklist| > 0 && parse(url).Parsed?
    ensures Verdict(url, [], blacklist, parse) <==> !MatchesAny(MatchHost(url, parse(url).host), blacklist)
  {
  }

  /** A URL that does not parse is invalid in both modes: there is no
      fallback to matching the raw string. */
  lemma ParseErrorDenies(url: string, whitelist: seq<string>, blacklist: seq<string>,
                         parse: string -> UrlParse)
    requires parse(url).ParseError?
    requires |whitelist| > 0 || |blacklist| > 0
    ensures !Verdict(url, whitelist, blacklist, parse)
  {
  }

  /** HasSuffix agrees with the textbook definition: `s` is some string
      followed by `suffix`. */
  lemma HasSuffixIffSplit(s: string, suffix: string)
    ensures HasSuffix(s, suffix) <==> exists p :: s == p + suffix
  {
    if HasSuffix(s, suffix) {
      var p := s[..|s| - |suffix|];
      assert s == p + suffix;
    }
    if exists p :: s == p + suffix {
      var p :| s == p + suffix;
      assert s[|s| - |suffix|..] == suffix;
    }
  }

  /** Matching ignores label boundaries: "xab.com" ends with "b.com", so a
      blacklist entry "b.com" also rejects https://xab.com. */
  lemma SuffixIgnoresLabels(parse: string -> UrlParse)
    requires parse("https://xab.com") == Parsed("xab.com")
    ensures HasSuffix("xab.com", "b.com")
    ensures !Verdict("https://xab.com", [], ["b.com"], parse)
  {
    assert "xab.com"[2..] == "b.com";
    assert "b.com" in ["b.com"];
  }

  /** An empty entry is a suffix of every host: if the active list holds
      "", every URL that parses is valid in whitelist mode and invalid in
      blacklist mode, whatever the other entries are. */
  lemma EmptyEntryMatchesAll(url: string, whitelist: seq<string>, blacklist: seq<string>,
                             parse: string -> UrlParse)
    requires (|whitelist| > 0) != (|blacklist| > 0)
    requires parse(url).Parsed? && "" in (if |whitelist| > 0 then whitelist else blacklist)
    ensures Verdict(url, whitelist, blacklist, parse) == (|whitelist| > 0)
  {
    var host := MatchHost(url, parse(url).host);
    assert HasSuffix(host, "") by {
      assert host[|host|..] == "";
    }
  }

  /** The scan stops at the first match, but every match flips the default
      to the same value, so permuting either list leaves the verdict
      unchanged. */
  lemma EntryOrderIrrelevant(url: string, whitelist: seq<string>, whitelist': seq<string>,
                             blacklist: seq<string>, blacklist': seq<string>, parse: string -> UrlParse)
    requires multiset(whitelist) == multiset(whitelist')
    requires multiset(blacklist) == multiset(blacklist')
    ensures Verdict(url, whitelist, blacklist, parse) == Verdict(url, whitelist', blacklist', parse)
  {
    assert |whitelist| == |multiset(whitelist)| == |whitelist'|;
    assert |blacklist| == |multiset(blacklist)| == |blacklist'|;
    forall d, list: seq<string>, list': seq<string> | multiset(list) == multiset(list')
      ensures d in list <==> d in list'
    {
      assert d in list <==> d in multiset(list);
      assert d in list' <==> d in multiset(list');
    }
  }

  /** The verdict depends only on each link's URL: the flag a link had
      before never shows through, because every path assigns it. */
  lemma ValidationIgnoresPriorFlags(a: seq<Link>, b: seq<Link>, whitelist: seq<string>,
                                    blacklist: seq<string>, parse: string -> UrlParse)
    requires |a| == |b|
    requires forall k :: 0 <= k < |a| ==> a[k].url == b[k].url && a[k].isLive == b[k].isLive
    ensures ValidatedLinks(a, whitelist, blacklist, parse) == ValidatedLinks(b, whitelist, blacklist, parse)
  {
  }

  /** A second run with the same lists changes nothing. */
  lemma ValidationIdempotent(links: seq<Link>, whitelist: seq<string>, blacklist: seq<string>,
                             parse: string -> UrlParse)
    ensures var once := ValidatedLinks(links, whitelist, blacklist, parse);
            ValidatedLinks(once, whitelist, blacklist, parse) == once
  {
  }

  // The classifier's test table.

  const TableUrls: seq<string> := [
    "a.com", "https://a.com", "https://www.a.com", "https://www.a.com/test", "http://test.a.com/test",
    "https://b.com", "https://www.b.com", "https://www.b.com/test", "http://test.b.com/test"]

  /** The Host that url.Parse reports for each URL of the table; the bare
      "a.com" parses as a path and has none. */
  predicate ReadsTableHosts(parse: string -> UrlParse) {
    && parse(TableUrls[0]) == Parsed("")
    && parse(TableUrls[1]) == Parsed("a.com")
    && parse(TableUrls[2]) == Parsed("www.a.com")
    && parse(TableUrls[3]) == Parsed("www.a.com")
    && parse(TableUrls[4]) == Parsed("test.a.com")
    && parse(TableUrls[5]) == Parsed("b.com")
    && parse(TableUrls[6]) == Parsed("www.b.com")
    && parse(TableUrls[7]) == Parsed("www.b.com")
    && parse(TableUrls[8]) == Parsed("test.b.com")
  }

  /** A host whose last five characters are "a.com" matches ["a.com"]. */
  lemma EndsWithA(host: string)
    requires |host| >= 5 && host[|host| - 5..] == "a.com"
    ensures MatchesAny(host, ["a.com"])
  {
    assert "a.com" in ["a.com"];
  }

  /** A host ending in "b.com" does not match ["a.com"]. */
  lemma EndsWithB(host: string)
    requires |host| >= 5 && host[|host| - 5..] == "b.com"
    ensures !MatchesAny(host, ["a.com"])
  {
  }

  /** Row `k` of the table: with the list ["a.com"] and url.Parse's hosts,
      the first five URLs end with "a.com" and the last four do not. */
  lemma TableRow(parse: string -> UrlParse, k: nat)
    requires ReadsTableHosts(parse) && k < |TableUrls|
    ensures Verdict(TableUrls[k], ["a.com"], [], parse) == (k < 5)
    ensures Verdict(TableUrls[k], [], ["a.com"], parse) == (k >= 5)
  {
    if k == 0 {
      EndsWithA(TableUrls[0]);
    } else if k == 1 {
      EndsWithA("a.com");
    } else if k == 2 || k == 3 {
      EndsWithA("www.a.com");
    } else if k == 4 {
      EndsWithA("test.a.com");
    } else if k == 5 {
      EndsWithB("b.com");
    } else if k == 6 || k == 7 {
      EndsWithB("www.b.com");
    } else {
      EndsWithB("test.b.com");
    }
  }

  /** Blacklist ["a.com"]: every a.com host is rejected, every b.com host kept. */
  lemma BlacklistTable(parse: string -> UrlParse)
    requires ReadsTableHosts(parse)
    ensures ValidFlags(ValidatedLinks(UncheckedLinks(TableUrls), [], ["a.com"], parse))
         == [false, false, false, false, false, true, true, true, true]
  {
    forall k | 0 <= k < |TableUrls| {
      TableRow(parse, k);
    }
  }

  /** Whitelist ["a.com"]: the same hosts, inverted. */
  lemma WhitelistTable(parse: string -> UrlParse)
    requires ReadsTableHosts(parse)
    ensures ValidFlags(ValidatedLinks(UncheckedLinks(TableUrls), ["a.com"], [], parse))
         == [true, true, true, true, true, false, false, false, false]
  {
    forall k | 0 <= k < |TableUrls| {
      TableRow(parse, k);
    }
  }
}
