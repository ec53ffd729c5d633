/**
 * A simplified model of System.Uri as the tracker uses it, following the
 * generic syntax of RFC 3986: scheme ":" ["//" authority] path ["?" query]
 * ["#" fragment]. The host is kept in lower case, as Uri.Host reports it, and
 * an empty path after an authority reads as "/", as Uri.AbsolutePath does.
 */
module Urls {
  import opened Text

  datatype Url = Url(scheme: string, host: string, path: string, tail: string)

  predicate IsSchemeChar(c: char)
  {
    ('a' <= c <= 'z') || ('A' <= c <= 'Z') || IsDigit(c) || c == '+' || c == '-' || c == '.'
  }

  /** Length of the scheme at the start of s, or 0 when s does not start with "scheme:". */
  function SchemeLength(s: string): (n: nat)
    ensures n > 0 ==> n < |s| && s[n] == ':'
  {
    if |s| == 0 || !(('a' <= s[0] <= 'z') || ('A' <= s[0] <= 'Z')) then 0
    else SchemeRun(s, 1)
  }

  function SchemeRun(s: string, i: nat): (n: nat)
    requires 1 <= i <= |s|
    ensures n > 0 ==> i <= n < |s| && s[n] == ':'
    decreases |s| - i
  {
    if i == |s| then 0
    else if s[i] == ':' then i
    else if IsSchemeChar(s[i]) then SchemeRun(s, i + 1)
    else 0
  }

  /** Index of the first character of s at or after i that is in stops, or |s|. */
  function FindAny(s: string, i: nat, stops: set<char>): (r: nat)
    requires i <= |s|
    ensures i <= r <= |s|
    ensures r < |s| ==> s[r] in stops
    ensures forall k :: i <= k < r ==> s[k] !in stops
    decreases |s| - i
  {
    if i == |s| || s[i] in stops then i else FindAny(s, i + 1, stops)
  }

  /** The host inside an authority: user information before '@' and a port after ':' removed. */
  function HostOf(authority: string): string
  {
    var at := LastIndexOfChar(authority, '@');
    var hostPort := if at < 0 then authority else authority[at + 1..];
    var colon := LastIndexOfChar(hostPort, ':');
    if colon < 0 then hostPort else hostPort[..colon]
  }

  function LastIndexOfChar(s: string, c: char): (r: int)
    ensures -1 <= r < |s|
    ensures r >= 0 ==> s[r] == c
  {
    if |s| == 0 then -1
    else if s[|s| - 1] == c then |s| - 1
    else LastIndexOfChar(s[..|s| - 1], c)
  }

  predicate NeedsAuthority(scheme: string)
  {
    EqIgnoreCase(scheme, "http") || EqIgnoreCase(scheme, "https")
  }

  /**
   * Uri.TryCreate(s, UriKind.Absolute): Some when s has a scheme; http and
   * https need a non-empty host, and a host never holds white space.
   */
  function ParseAbsolute(s: string): (r: Option<Url>)
    ensures r.Some? ==> SchemeLength(s) > 0
    ensures r.Some? && NeedsAuthority(r.value.scheme) ==> r.value.host != ""
    ensures r.Some? ==> IsLowered(r.value.host)
  {
    var n := SchemeLength(s);
    if n == 0 then None
    else
      var scheme := s[..n];
      var rest := s[n + 1..];
      if |rest| >= 2 && rest[..2] == "//" then
        var end := FindAny(rest, 2, {'/', '?', '#'});
        var host := Lower(HostOf(rest[2..end]));
        var q := FindAny(rest, end, {'?', '#'});
        var path := if q == end then "/" else rest[end..q];
        if (host == "" && NeedsAuthority(scheme)) || exists k | 0 <= k < |host| :: IsWhiteSpace(host[k]) then None
        else
          LowerIsLowered(HostOf(rest[2..end]));
          Some(Url(scheme, host, path, rest[q..]))
      else if NeedsAuthority(scheme) then None
      else
        var q := FindAny(rest, 0, {'?', '#'});
        Some(Url(scheme, "", rest[..q], rest[q..]))
  }

  /**
   * NormalizeUrl (HttpFetcher and MainWindow): the trimmed text when it is already
   * absolute, otherwise the trimmed text behind "https://" when that has a host;
   * None where the source throws.
   */
  function NormalizeUrl(raw: string): (r: Option<string>)
    ensures r.Some? ==> ParseAbsolute(r.value).Some?
    ensures r.Some? && ParseAbsolute(Trim(raw)).None? ==>
              r.value == "https://" + Trim(raw) && ParseAbsolute(r.value).value.host != ""
    ensures r.None? ==> ParseAbsolute(Trim(raw)).None?
    // an absolute address comes back trimmed, and a bare host name gains the https scheme
    ensures ParseAbsolute(Trim(raw)).Some? ==> r == Some(Trim(raw))
    ensures (ParseAbsolute(Trim(raw)).None? && ParseAbsolute("https://" + Trim(raw)).Some? &&
             ParseAbsolute("https://" + Trim(raw)).value.host != "") ==> r == Some("https://" + Trim(raw))
    ensures r.None? <==> ParseAbsolute(Trim(raw)).None? &&
                         (ParseAbsolute("https://" + Trim(raw)).None? || ParseAbsolute("https://" + Trim(raw)).value.host == "")
  {
    var url := Trim(raw);
    if ParseAbsolute(url).Some? then Some(url)
    else
      var withScheme := "https://" + url;
      var abs := ParseAbsolute(withScheme);
      if abs.Some? && abs.value.host != "" then Some(withScheme) else None
  }

  /** Normalizing an already normalized address changes nothing. */
  lemma NormalizeUrlIdempotent(raw: string)
    requires NormalizeUrl(raw).Some?
    ensures NormalizeUrl(NormalizeUrl(raw).value) == NormalizeUrl(raw)
  {
    var url := Trim(raw);
    var r := NormalizeUrl(raw).value;
    if ParseAbsolute(url).None? {
      assert r == "https://" + url;
      assert r[0] == 'h';
      if url != [] {
        assert r[|r| - 1] == url[|url| - 1];
      }
    }
    TrimOfTrimmed(r);
  }

  /** BrowserWindow.NormalizeUrl: like NormalizeUrl, but hands the text back where that one fails. */
  function NormalizeUrlOrSelf(raw: string): (r: string)
    ensures NormalizeUrl(raw).Some? ==> r == NormalizeUrl(raw).value
    ensures NormalizeUrl(raw).None? ==> r == raw
  {
    match NormalizeUrl(raw)
    case Some(u) => u
    case None => raw
  }

  /** The browser window's normalization is idempotent too: where it fails, the text it hands back fails again. */
  lemma NormalizeUrlOrSelfIdempotent(raw: string)
    ensures NormalizeUrlOrSelf(NormalizeUrlOrSelf(raw)) == NormalizeUrlOrSelf(raw)
  {
    if NormalizeUrl(raw).Some? {
      NormalizeUrlIdempotent(raw);
    }
  }

  /** TryGetHost (BrowserWindow): the host of an absolute address, when it has one. */
  function TryGetHost(url: string): (r: Option<string>)
    ensures r.Some? ==> r.value != "" && ParseAbsolute(url).Some? && r.value == ParseAbsolute(url).value.host
    ensures r.None? ==> ParseAbsolute(url).None? || ParseAbsolute(url).value.host == ""
  {
    match ParseAbsolute(url)
    case Some(u) => if u.host != "" then Some(u.host) else None
    case None => None
  }

  /** The directory part of a path: everything up to and including its last '/'. */
  function Directory(path: string): string
  {
    var k := LastIndexOfChar(path, '/');
    if k < 0 then "" else path[..k + 1]
  }

  /**
   * new Uri(baseUri, href) as RFC 3986 section 5.2 resolves it, without the
   * removal of "." and ".." segments; None where the result is not a valid URI.
   */
  function Resolve(base: Url, href: string): Option<Url>
  {
    if ParseAbsolute(href).Some? then ParseAbsolute(href)
    else if |href| >= 2 && href[..2] == "//" then ParseAbsolute(base.scheme + ":" + href)
    else
      var q := FindAny(href, 0, {'?', '#'});
      var path := href[..q];
      if path == "" then Some(Url(base.scheme, base.host, base.path, if q < |href| then href[q..] else base.tail))
      else if path[0] == '/' then Some(Url(base.scheme, base.host, path, href[q..]))
      else Some(Url(base.scheme, base.host, Directory(base.path) + path, href[q..]))
  }

  /** A relative link keeps the host of the page it appears on. */
  lemma ResolveRelativeKeepsHost(base: Url, href: string)
    requires ParseAbsolute(href).None?
    requires !(|href| >= 2 && href[..2] == "//")
    ensures Resolve(base, href).Some? && Resolve(base, href).value.host == base.host
  {
  }
}
