/** The Link record shared by every stage of the checker, and its coloured
    one-line rendering (Link.String in lib.go). */
module Links {
  /** One URL found in a document, with the two flags the checker fills in:
      `isValid` (allowed by the domain policy) and `isLive` (answered 200). */
  datatype Link = Link(url: string, isValid: bool, isLive: bool)

  /** A record as link extraction creates it: no flag set yet. */
  function Unchecked(url: string): Link {
    Link(url, false, false)
  }

  /** Links as extraction creates them, one per URL, in order. */
  function UncheckedLinks(urls: seq<string>): seq<Link> {
    seq(|urls|, k requires 0 <= k < |urls| => Unchecked(urls[k]))
  }

  /** The `isValid` column of a list of links. */
  function ValidFlags(links: seq<Link>): seq<bool> {
    seq(|links|, k requires 0 <= k < |links| => links[k].isValid)
  }

  // ANSI escape sequences used for the terminal report.
  const Red: string := "\U{1B}[31m"
  const Green: string := "\U{1B}[32m"
  const Reset: string := "\U{1B}[0m"

  /** A red cross or a green tick, ten characters either way. */
  function Mark(flag: bool): (m: string)
    ensures |m| == 10
  {
    if flag then Green + "\U{2713}" + Reset else Red + "\U{2717}" + Reset
  }

  /** Two status marks and the URL, separated by single spaces; the URL is
      green only when the link is both valid and live. */
  function Render(l: Link): (s: string)
    ensures |s| == 31 + |l.url|
    ensures s[..10] == Mark(l.isValid) && s[10] == ' '
    ensures s[11..21] == Mark(l.isLive) && s[21] == ' '
    ensures s[22..27] == (if l.isValid && l.isLive then Green else Red)
    ensures s[27..27 + |l.url|] == l.url && s[27 + |l.url|..] == Reset
  {
    var validMark := Mark(l.isValid);
    var liveMark := Mark(l.isLive);
    var linkColored := (if l.isValid && l.isLive then Green else Red) + l.url + Reset;
    validMark + " " + liveMark + " " + linkColored
  }

  /** The two marks differ, so a mark determines its flag. */
  lemma MarkInjective(a: bool, b: bool)
    ensures Mark(a) == Mark(b) <==> a == b
  {
    if a != b {
      assert Mark(a)[3] != Mark(b)[3];
    }
  }

  /** The rendered line loses nothing: two links with the same line are the
      same link. */
  lemma RenderInjective(a: Link, b: Link)
    requires Render(a) == Render(b)
    ensures a == b
  {
    var s := Render(a);
    MarkInjective(a.isValid, b.isValid);
    MarkInjective(a.isLive, b.isLive);
    assert |a.url| == |b.url|;
    assert a.url == s[27..27 + |a.url|] == b.url;
  }

  /** The URL is shown in green exactly when the link passed both checks. */
  lemma GreenOnlyWhenValidAndLive(l: Link)
    ensures Render(l)[22..27] == Green <==> l.isValid && l.isLive
  {
  }
}
