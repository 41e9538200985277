/** `ok_to_crawl`: the ordered decision whether an absolute URL may be
    fetched. URL parsing (`urllib.parse.urlparse`) and reading a robots.txt
    file (`urllib.robotparser.RobotFileParser`) are library code; they enter
    the model as the oracles `parse` and `robots`. */
module Permission {
  import opened Text

  /** The two fields of `urlparse(url)` the decision reads. A missing
      hostname (`None`) is the empty string: the code tests both with `not`. */
  datatype Url = Url(scheme: string, hostname: string)

  /** What reading a robots.txt file gives: a failure (any exception from
      `read()`), or the parsed rules, asked through `can_fetch(agent, url)`. */
  datatype RobotsFile = Unreadable | Rules(canFetch: (string, string) -> bool)

  /** Why a URL is refused before any robots.txt file is read. */
  datatype Refusal = MailLink | ScriptLink | NotAbsolute

  /** The part of the decision taken from the URL alone. */
  datatype Decision = Refused(why: Refusal) | LocalFile | AskRobots(robotsUrl: string)

  const MailPrefix := "mailto:"
  const ScriptPrefix := "javascript:"
  const FileScheme := "file"
  /** The user agent whose rules are consulted. */
  const AnyAgent := "*"

  /** Where the robots.txt file of a host lives: a location that starts
      with the scheme, names the host after "://", and ends in
      "/robots.txt". */
  function RobotsUrl(scheme: string, hostname: string): (r: string)
    ensures |r| == |scheme| + |hostname| + 14
    ensures r[..|scheme|] == scheme
    ensures r[|scheme| + 3..|r| - 11] == hostname
    ensures StartsWith(r[|scheme|..], "://") && r[|r| - 11..] == "/robots.txt"
  {
    scheme + "://" + hostname + "/robots.txt"
  }

  /** The checks of `ok_to_crawl` that come before the robots.txt file is
      read, in the order the code makes them. */
  function Decide(url: string, parse: string -> Url): (d: Decision)
  {
    if StartsWith(Lower(url), MailPrefix) then Refused(MailLink)
    else if StartsWith(Lower(url), ScriptPrefix) then Refused(ScriptLink)
    else
      var u := parse(url);
      if StartsWith(Lower(u.scheme), FileScheme) then LocalFile
      else if u.scheme == "" || u.hostname == "" then Refused(NotAbsolute)
      else AskRobots(RobotsUrl(u.scheme, u.hostname))
  }

  /** `ok_to_crawl(url)`. */
  function OkToCrawl(url: string, parse: string -> Url, robots: string -> RobotsFile): (ok: bool)
  {
    match Decide(url, parse)
    case Refused(_) => false
    case LocalFile => true
    case AskRobots(robotsUrl) =>
      match robots(robotsUrl)
      case Unreadable => false
      case Rules(canFetch) => canFetch(AnyAgent, url)
  }

  /** The decision written as one formula, with case-insensitive prefix
      tests in place of lower-casing. */
  predicate Permitted(url: string, parse: string -> Url, robots: string -> RobotsFile)
  {
    var u := parse(url);
    var file := robots(RobotsUrl(u.scheme, u.hostname));
    && !StartsWithIgnoringCase(url, MailPrefix)
    && !StartsWithIgnoringCase(url, ScriptPrefix)
    && (|| StartsWithIgnoringCase(u.scheme, FileScheme)
        || (u.scheme != "" && u.hostname != "" && file.Rules? && file.canFetch(AnyAgent, url)))
  }


  /** The lower-casing prefix tests of the code are case-insensitive
      prefix tests. */
  lemma CaseInsensitiveTests(url: string, scheme: string)
    ensures StartsWith(Lower(url), MailPrefix) <==> StartsWithIgnoringCase(url, MailPrefix)
    ensures StartsWith(Lower(url), ScriptPrefix) <==> StartsWithIgnoringCase(url, ScriptPrefix)
    ensures StartsWith(Lower(scheme), FileScheme) <==> StartsWithIgnoringCase(scheme, FileScheme)
  {
    LowerStartsWith(url, MailPrefix);
    LowerStartsWith(url, ScriptPrefix);
    LowerStartsWith(scheme, FileScheme);
  }

  /** A `mailto:` link, in any case, is refused without parsing the URL or
      reading a robots.txt file. */
  lemma MailLinkRefused(url: string, parse: string -> Url, robots: string -> RobotsFile)
    requires StartsWithIgnoringCase(url, MailPrefix)
    ensures Decide(url, parse) == Refused(MailLink)
    ensures !OkToCrawl(url, parse, robots)
  {
    CaseInsensitiveTests(url, "");
  }

  /** A `javascript:` link, in any case, is refused without parsing the URL
      or reading a robots.txt file. */
  lemma ScriptLinkRefused(url: string, parse: string -> Url, robots: string -> RobotsFile)
    requires !StartsWithIgnoringCase(url, MailPrefix)
    requires StartsWithIgnoringCase(url, ScriptPrefix)
    ensures Decide(url, parse) == Refused(ScriptLink)
    ensures !OkToCrawl(url, parse, robots)
  {
    CaseInsensitiveTests(url, "");
  }

  /** Any scheme that begins with "file" in any case ("file", "FILE",
      "files", ...) is accepted without reading a robots.txt file. */
  lemma FileSchemeAccepted(url: string, parse: string -> Url, robots: string -> RobotsFile)
    requires !StartsWithIgnoringCase(url, MailPrefix)
    requires !StartsWithIgnoringCase(url, ScriptPrefix)
    requires StartsWithIgnoringCase(parse(url).scheme, FileScheme)
    ensures Decide(url, parse) == LocalFile
    ensures OkToCrawl(url, parse, robots)
  {
    CaseInsensitiveTests(url, parse(url).scheme);
  }

  /** A URL that is not a mail, script or file link and lacks a scheme or a
      hostname is refused without reading a robots.txt file. */
  lemma NotAbsoluteRefused(url: string, parse: string -> Url, robots: string -> RobotsFile)
    requires !StartsWithIgnoringCase(url, MailPrefix)
    requires !StartsWithIgnoringCase(url, ScriptPrefix)
    requires !StartsWithIgnoringCase(parse(url).scheme, FileScheme)
    requires parse(url).scheme == "" || parse(url).hostname == ""
    ensures Decide(url, parse) == Refused(NotAbsolute)
    ensures !OkToCrawl(url, parse, robots)
  {
    CaseInsensitiveTests(url, parse(url).scheme);
  }

  /** In every other case the robots.txt file at
      `scheme://hostname/robots.txt` decides for agent "*"; a file that
      cannot be read means no. */
  lemma RobotsDecide(url: string, parse: string -> Url, robots: string -> RobotsFile)
    requires !StartsWithIgnoringCase(url, MailPrefix)
    requires !StartsWithIgnoringCase(url, ScriptPrefix)
    requires !StartsWithIgnoringCase(parse(url).scheme, FileScheme)
    requires parse(url).scheme != "" && parse(url).hostname != ""
    ensures Decide(url, parse) == AskRobots(parse(url).scheme + "://" + parse(url).hostname + "/robots.txt")
    ensures var file := robots(parse(url).scheme + "://" + parse(url).hostname + "/robots.txt");
            OkToCrawl(url, parse, robots) == (file.Rules? && file.canFetch("*", url))
  {
    CaseInsensitiveTests(url, parse(url).scheme);
  }

  /** The result depends on the robots oracle only when `Decide` asks it. */
  lemma RobotsReadOnlyWhenAsked(url: string, parse: string -> Url, r1: string -> RobotsFile, r2: string -> RobotsFile)
    requires !Decide(url, parse).AskRobots? || r1(Decide(url, parse).robotsUrl) == r2(Decide(url, parse).robotsUrl)
    ensures OkToCrawl(url, parse, r1) == OkToCrawl(url, parse, r2)
  {
  }

  /** `OkToCrawl` agrees with the one-formula reading, in both directions. */
  lemma OkToCrawlIsPermitted(url: string, parse: string -> Url, robots: string -> RobotsFile)
    ensures OkToCrawl(url, parse, robots) <==> Permitted(url, parse, robots)
  {
    CaseInsensitiveTests(url, parse(url).scheme);
  }

  /** Distinct (scheme, hostname) pairs give distinct robots.txt locations,
      so each host is asked about its own file. A scheme never holds ':'. */
  lemma RobotsUrlInjective(s1: string, h1: string, s2: string, h2: string)
    requires ':' !in s1 && ':' !in s2
    requires RobotsUrl(s1, h1) == RobotsUrl(s2, h2)
    ensures s1 == s2 && h1 == h2
  {
    var r := RobotsUrl(s1, h1);
    assert |s1| == |s2| by {
      FirstColon(s1, h1);
      FirstColon(s2, h2);
    }
    assert s1 == r[..|s1|] == s2;
    assert h1 == r[|s1| + 3..|r| - 11] == h2;
  }

  /** The first ':' of a robots.txt location ends its scheme. */
  lemma FirstColon(scheme: string, hostname: string)
    requires ':' !in scheme
    ensures RobotsUrl(scheme, hostname)[|scheme|] == ':'
    ensures forall i :: 0 <= i < |scheme| ==> RobotsUrl(scheme, hostname)[i] != ':'
  {
  }
}
