/** Feed URL normalisation, written over the six components the URL parser
    returns (scheme, netloc, path, params, query, fragment).  The parser is
    the parameter `parse`; what it does to a string is not modelled. */
module FeedUrl {
  import opened Text

  datatype ParsedUrl = ParsedUrl(scheme: string, netloc: string, path: string, params: string, query: string, fragment: string)

  predicate EndsWith(s: string, suffix: string) {
    |suffix| <= |s| && s[|s| - |suffix|..] == suffix
  }

  /** Lines 23-26 on the lower-cased netloc: the default port of the scheme
      goes, any other port stays. */
  function NormalizeNetloc(scheme: string, host: string): (r: string)
    ensures scheme == "http" && EndsWith(host, ":80") ==> r + ":80" == host
    ensures scheme == "https" && EndsWith(host, ":443") ==> r + ":443" == host
    ensures (!(scheme == "http" && EndsWith(host, ":80"))
             && !(scheme == "https" && EndsWith(host, ":443"))) ==> r == host
    ensures IsLowerStr(host) ==> IsLowerStr(r)
  {
    if scheme == "http" && EndsWith(host, ":80") then host[..|host| - 3]
    else if scheme == "https" && EndsWith(host, ":443") then host[..|host| - 4]
    else host
  }

  /** Drop one trailing slash, except from the root path. */
  function NormalizePath(path: string): (r: string)
    ensures EndsWith(path, "/") && path != "/" ==> r + "/" == path
    ensures !(EndsWith(path, "/") && path != "/") ==> r == path
  {
    if EndsWith(path, "/") && path != "/" then path[..|path| - 1] else path
  }

  /** Only one slash goes: a path ending in two keeps one of them. */
  lemma OneSlashOnly(p: string)
    ensures NormalizePath(p + "//") == p + "/"
  {
    assert (p + "//")[..|p + "//"| - 1] == p + "/";
  }

  /** Reassembly of scheme, netloc, path and query, with params and fragment
      empty, for a non-empty netloc: `scheme://netloc`, then the path (given
      a leading slash when it lacks one), then `?query` when there is a query. */
  function Unsplit(scheme: string, netloc: string, path: string, query: string): string {
    var p := if path != "" && path[0] != '/' then "/" + path else path;
    scheme + "://" + netloc + p + (if query != "" then "?" + query else "")
  }

  /** `normalize_url`: the stripped input unchanged when it has no scheme or
      no netloc; otherwise reassembled from the normalised parts. */
  function NormalizeUrl(raw: string, parse: string -> ParsedUrl): (r: string)
    ensures var u := parse(Strip(raw));
            u.scheme == "" || u.netloc == "" ==> r == Strip(raw)
    ensures var u := parse(Strip(raw));
            u.scheme != "" && u.netloc != "" ==>
              r == Unsplit(LowerStr(u.scheme), NormalizeNetloc(LowerStr(u.scheme), LowerStr(u.netloc)), NormalizePath(u.path), u.query)
  {
    var stripped := Strip(raw);
    var parsed := parse(stripped);
    if parsed.scheme == "" || parsed.netloc == "" then stripped
    else
      var scheme := LowerStr(parsed.scheme);
      Unsplit(scheme, NormalizeNetloc(scheme, LowerStr(parsed.netloc)), NormalizePath(parsed.path), parsed.query)
  }

  /** Two inputs whose parts differ at most in the case of scheme and netloc,
      and in params and fragment, normalise to the same URL. */
  lemma CaseAndFragmentIgnored(a: string, b: string, parse: string -> ParsedUrl)
    requires var u, v := parse(Strip(a)), parse(Strip(b));
             u.scheme != "" && u.netloc != "" && v.scheme != "" && v.netloc != ""
             && LowerStr(u.scheme) == LowerStr(v.scheme) && LowerStr(u.netloc) == LowerStr(v.netloc)
             && u.path == v.path && u.query == v.query
    ensures NormalizeUrl(a, parse) == NormalizeUrl(b, parse)
  {
  }

  /** Normalising the parts again changes nothing, unless the host carried
      its default port twice or the path ended in two slashes. */
  lemma PartsIdempotent(scheme: string, host: string, path: string)
    requires !EndsWith(NormalizeNetloc(scheme, host), ":80") && !EndsWith(NormalizeNetloc(scheme, host), ":443")
    ensures NormalizeNetloc(scheme, NormalizeNetloc(scheme, host)) == NormalizeNetloc(scheme, host)
    ensures !EndsWith(path, "//") ==> NormalizePath(NormalizePath(path)) == NormalizePath(path)
  {
    if EndsWith(path, "/") && path != "/" && !EndsWith(path, "//") {
      var q := NormalizePath(path);
      assert |path| >= 2;
      assert q == path[..|path| - 1] && q[|q| - 1] == path[|path| - 2];
      assert path[|path| - 2..] == [path[|path| - 2], path[|path| - 1]];
      assert !EndsWith(q, "/");
    }
  }

  /** The default port of one scheme survives under the other. */
  lemma OtherSchemesPortKept(host: string)
    ensures NormalizeNetloc("http", host + ":80") == host
    ensures NormalizeNetloc("https", host + ":443") == host
    ensures NormalizeNetloc("https", host + ":80") == host + ":80"
    ensures NormalizeNetloc("http", host + ":443") == host + ":443"
  {
    var a, b := host + ":80", host + ":443";
    assert a[|a| - 3..] == ":80" && b[|b| - 4..] == ":443";
    assert a[..|a| - 3] == host && b[..|b| - 4] == host;
    assert a[|a| - 1] == '0' && b[|b| - 1] == '3';
  }
}
