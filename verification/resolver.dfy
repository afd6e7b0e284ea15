/** Identifier resolution: from a channel URL to the channel id, through the
    `@handle` in the URL's path and one channel search. */
module Resolver {
  import opened Wrappers
  import opened Paging
  import Seqs

  // ---------------------------------------------------------------------------
  // The path component of a URL, as `urllib.parse.urlparse` splits it
  // ---------------------------------------------------------------------------

  /** Tab, carriage return and line feed, which `urlsplit` deletes wherever they occur. */
  predicate IsUnsafe(c: char) {
    c == '\t' || c == '\r' || c == '\n'
  }

  predicate SafeText(s: string) {
    '\t' !in s && '\r' !in s && '\n' !in s
  }

  /** The C0 control characters and space, which `urlsplit` strips from the front. */
  predicate IsControlOrSpace(c: char) {
    c <= ' '
  }

  function StripLeading(s: string): (r: string)
    ensures |r| <= |s| && r == s[|s| - |r|..]
    ensures forall i :: 0 <= i < |s| - |r| ==> IsControlOrSpace(s[i])
    ensures |r| > 0 ==> !IsControlOrSpace(r[0])
  {
    if |s| > 0 && IsControlOrSpace(s[0]) then StripLeading(s[1..]) else s
  }

  /** `s` with every tab, carriage return and line feed deleted. */
  function RemoveUnsafe(s: string): (r: string)
    ensures SafeText(r) && |r| <= |s|
    ensures SafeText(s) ==> r == s
  {
    if |s| == 0 then [] else (if IsUnsafe(s[0]) then [] else [s[0]]) + RemoveUnsafe(s[1..])
  }

  lemma {:induction false} RemoveUnsafeAppend(a: string, b: string)
    ensures RemoveUnsafe(a + b) == RemoveUnsafe(a) + RemoveUnsafe(b)
  {
    if |a| > 0 {
      var h := if IsUnsafe(a[0]) then [] else [a[0]];
      assert (a + b)[0] == a[0] && (a + b)[1..] == a[1..] + b;
      RemoveUnsafeAppend(a[1..], b);
      assert RemoveUnsafe(a + b) == h + (RemoveUnsafe(a[1..]) + RemoveUnsafe(b));
    } else {
      assert a + b == b;
    }
  }

  /** The text `urlsplit` actually splits: leading controls and spaces stripped,
      then tabs and line breaks deleted. */
  function CleanUrl(url: string): (r: string)
    ensures SafeText(r)
    ensures |r| > 0 ==> !IsControlOrSpace(r[0])
  {
    var t := StripLeading(url);
    RemoveUnsafeHead(t);
    RemoveUnsafe(t)
  }

  /** The first character survives deletion when it is not one of the deleted ones. */
  lemma RemoveUnsafeHead(s: string)
    ensures |s| > 0 && !IsUnsafe(s[0]) ==> |RemoveUnsafe(s)| > 0 && RemoveUnsafe(s)[0] == s[0]
  {
  }

  predicate IsAsciiLetter(c: char) {
    'a' <= c <= 'z' || 'A' <= c <= 'Z'
  }

  /** Characters allowed in a URL scheme. */
  predicate IsSchemeChar(c: char) {
    IsAsciiLetter(c) || '0' <= c <= '9' || c == '+' || c == '-' || c == '.'
  }

  /** A scheme as `urlsplit` recognises it: an ASCII letter, then scheme characters. */
  predicate IsScheme(s: string) {
    |s| > 0 && IsAsciiLetter(s[0]) && forall j :: 0 <= j < |s| ==> IsSchemeChar(s[j])
  }

  /** A piece of a URL with no `/`, `?` or `#`, and no tab or line break. */
  predicate PlainPart(s: string) {
    '/' !in s && '?' !in s && '#' !in s && SafeText(s)
  }

  /** Position of the first occurrence of `c` in `s`. */
  function IndexOf(s: string, c: char): (r: Option<nat>)
    ensures r.Some? ==> r.value < |s| && s[r.value] == c && c !in s[..r.value]
    ensures r.None? ==> c !in s
  {
    if |s| == 0 then None
    else if s[0] == c then Some(0)
    else match IndexOf(s[1..], c)
      case None => None
      case Some(i) => Some(i + 1)
  }

  /** The part of `s` before the first `c`, or all of `s` when `c` does not occur. */
  function Before(s: string, c: char): (r: string)
    ensures c !in r
    ensures c !in s ==> r == s
    ensures r <= s
    ensures SafeText(s) ==> SafeText(r)
  {
    match IndexOf(s, c)
    case None => s
    case Some(i) => s[..i]
  }

  /** Drops a leading `scheme:` when the text before the first colon is a scheme:
      at least one character, the first an ASCII letter, all scheme characters. */
  function AfterScheme(url: string): (rest: string)
    ensures rest == url || (exists i :: 0 < i < |url| && url[i] == ':' && rest == url[i + 1..])
    ensures SafeText(url) ==> SafeText(rest)
  {
    match IndexOf(url, ':')
    case None => url
    case Some(i) =>
      if i > 0 && IsAsciiLetter(url[0]) && forall j :: 0 <= j < i ==> IsSchemeChar(url[j])
      then url[i + 1..]
      else url
  }

  /** Drops a `//authority` prefix: the authority ends at the first `/`, `?` or `#`. */
  function AfterAuthority(s: string): (rest: string)
    ensures |rest| <= |s|
    ensures !(|s| >= 2 && s[..2] == "//") ==> rest == s
    ensures SafeText(s) ==> SafeText(rest)
  {
    if |s| >= 2 && s[..2] == "//" then AuthorityRest(s[2..]) else s
  }

  /** The text from the first `/`, `?` or `#` on. */
  function AuthorityRest(s: string): (rest: string)
    ensures rest <= s || (|rest| < |s| && rest == s[|s| - |rest|..])
    ensures |rest| > 0 ==> rest[0] in "/?#"
    ensures SafeText(s) ==> SafeText(rest)
    decreases |s|
  {
    if |s| == 0 then []
    else if s[0] in "/?#" then s
    else AuthorityRest(s[1..])
  }

  /** The path of a URL, as `urlparse` gives it: after the scheme and the authority,
      before the fragment and the query, and without the `;parameters` for the schemes
      that have them, all in the cleaned text. */
  function UrlPath(url: string): (path: string)
    ensures '#' !in path && '?' !in path
    ensures SafeText(path)
  {
    PathOf(CleanUrl(url))
  }

  function PathOf(u: string): (path: string)
    ensures '#' !in path && '?' !in path
    ensures SafeText(u) ==> SafeText(path)
  {
    if HasParams(SchemeOf(u)) then DropParams(SplitPath(u)) else SplitPath(u)
  }

  function SplitPath(u: string): (path: string)
    ensures '#' !in path && '?' !in path
    ensures SafeText(u) ==> SafeText(path)
  {
    Before(Before(AfterAuthority(AfterScheme(u)), '#'), '?')
  }

  function Lower(c: char): char {
    if 'A' <= c <= 'Z' then (c as int + 32) as char else c
  }

  /** The scheme `urlsplit` finds, lower-cased, or `""` when there is none. */
  function SchemeOf(url: string): string {
    match IndexOf(url, ':')
    case None => ""
    case Some(i) =>
      if i > 0 && IsAsciiLetter(url[0]) && forall j :: 0 <= j < i ==> IsSchemeChar(url[j])
      then Seqs.Map(Lower, url[..i])
      else ""
  }

  /** The schemes whose paths carry `;parameters` (`uses_params`); the empty scheme is one. */
  const UsesParams: set<string> := {"", "ftp", "hdl", "prospero", "http", "imap", "https", "shttp",
                                    "rtsp", "rtsps", "rtspu", "sip", "sips", "mms", "sftp", "tel"}

  /** The scheme is one whose last path segment may carry `;parameters`. */
  predicate HasParams(scheme: string) {
    scheme in UsesParams
  }

  /** Position of the last occurrence of `c` in `s`. */
  function LastIndexOf(s: string, c: char): (r: Option<nat>)
    ensures r.Some? ==> r.value < |s| && s[r.value] == c && c !in s[r.value + 1..]
    ensures r.None? ==> c !in s
  {
    if |s| == 0 then None
    else if s[|s| - 1] == c then Some(|s| - 1)
    else
      var r := LastIndexOf(s[..|s| - 1], c);
      assert r.Some? ==> s[r.value + 1..] == s[..|s| - 1][r.value + 1..] + [s[|s| - 1]];
      assert r.None? ==> s == s[..|s| - 1] + [s[|s| - 1]];
      r
  }

  /** A path without its `;parameters` (`_splitparams`): cut at the first `;` after the
      last `/`, or at the first `;` when there is no `/`. */
  function DropParams(p: string): (r: string)
    ensures r <= p
    ensures ';' !in p ==> r == p
  {
    match LastIndexOf(p, '/')
    case None => Before(p, ';')
    case Some(k) =>
      assert p == p[..k] + p[k..];
      p[..k] + Before(p[k..], ';')
  }

  // ---------------------------------------------------------------------------
  // Stripping slashes from both ends (`str.strip("/")`)
  // ---------------------------------------------------------------------------

  /** `n` slashes. */
  function Slashes(n: nat): (s: string)
    ensures |s| == n && forall i :: 0 <= i < n ==> s[i] == '/'
  {
    if n == 0 then [] else Slashes(n - 1) + "/"
  }

  function TrimLeft(s: string): (r: string)
    ensures |r| <= |s| && s == Slashes(|s| - |r|) + r
    ensures |r| > 0 ==> r[0] != '/'
  {
    if |s| > 0 && s[0] == '/' then
      var r := TrimLeft(s[1..]);
      assert Slashes(|s| - |r|) == "/" + Slashes(|s| - 1 - |r|) by { SlashesCons(|s| - 1 - |r|); }
      r
    else
      s
  }

  function TrimRight(s: string): (r: string)
    ensures |r| <= |s| && s == r + Slashes(|s| - |r|)
    ensures |r| > 0 ==> r[|r| - 1] != '/'
  {
    if |s| > 0 && s[|s| - 1] == '/' then
      var r := TrimRight(s[..|s| - 1]);
      r
    else
      s
  }

  lemma {:induction false} SlashesCons(n: nat)
    ensures Slashes(n + 1) == "/" + Slashes(n)
  {
    if n > 0 {
      SlashesCons(n - 1);
    }
  }

  /** `s` without its leading and trailing slashes. */
  function StripSlashes(s: string): (r: string)
    ensures |r| > 0 ==> r[0] != '/' && r[|r| - 1] != '/'
    ensures '/' !in s ==> r == s
  {
    var l := TrimLeft(s);
    var r := TrimRight(l);
    assert |r| > 0 ==> r[0] == l[0];
    r
  }

  lemma StripSlashesDecomposes(s: string)
    ensures exists a: nat, b: nat :: s == Slashes(a) + StripSlashes(s) + Slashes(b)
  {
    var l := TrimLeft(s);
    var r := TrimRight(l);
    assert s == Slashes(|s| - |l|) + r + Slashes(|l| - |r|);
  }

  /** Whatever slashes surround a text that neither starts nor ends with one,
      stripping recovers exactly that text. */
  lemma {:induction false} StripSlashesUnique(a: nat, m: string, b: nat)
    requires |m| > 0 ==> m[0] != '/' && m[|m| - 1] != '/'
    ensures StripSlashes(Slashes(a) + m + Slashes(b)) == m
  {
    var s := Slashes(a) + m + Slashes(b);
    if |m| == 0 {
      SlashesAppend(a, b);
      assert s == Slashes(a + b) + [];
      TrimLeftOf(a + b, []);
      TrimRightOf([], 0);
      assert [] + Slashes(0) == [];
    } else {
      assert s == Slashes(a) + (m + Slashes(b));
      TrimLeftOf(a, m + Slashes(b));
      TrimRightOf(m, b);
    }
  }

  lemma {:induction false} SlashesAppend(a: nat, b: nat)
    ensures Slashes(a) + Slashes(b) == Slashes(a + b)
  {
    if b > 0 {
      SlashesAppend(a, b - 1);
      assert Slashes(a) + Slashes(b) == Slashes(a) + Slashes(b - 1) + "/";
    }
  }

  lemma {:induction false} TrimLeftOf(a: nat, t: string)
    requires |t| > 0 ==> t[0] != '/'
    ensures TrimLeft(Slashes(a) + t) == t
  {
    if a > 0 {
      SlashesCons(a - 1);
      assert (Slashes(a) + t)[1..] == Slashes(a - 1) + t;
      TrimLeftOf(a - 1, t);
    }
  }

  lemma {:induction false} TrimRightOf(t: string, b: nat)
    requires |t| > 0 ==> t[|t| - 1] != '/'
    ensures TrimRight(t + Slashes(b)) == t
  {
    if b > 0 {
      assert (t + Slashes(b))[..|t| + b - 1] == t + Slashes(b - 1);
      TrimRightOf(t, b - 1);
    } else {
      assert t + Slashes(b) == t;
    }
  }

  // ---------------------------------------------------------------------------
  // The handle check and the channel search
  // ---------------------------------------------------------------------------

  /** The handle the tool reads from a channel URL: the URL's path without the slashes
      around it. */
  function HandleOf(url: string): (h: string)
    ensures |h| > 0 ==> h[0] != '/' && h[|h| - 1] != '/'
    ensures '?' !in h && '#' !in h && SafeText(h)
  {
    var path := UrlPath(url);
    StripSlashesDecomposes(path);
    StripSlashes(path)
  }

  predicate IsHandle(h: string) {
    |h| > 0 && h[0] == '@'
  }

  /** The search request: the handle as query term, one result, channels only. */
  datatype SearchQuery = SearchQuery(q: string, maxResults: nat, kind: string)

  function ChannelSearch(handle: string): SearchQuery {
    SearchQuery(handle, 1, "channel")
  }

  datatype ChannelHit = ChannelHit(channelId: string)

  /** A search answer; `items` may be absent altogether. */
  datatype SearchResponse = SearchResponse(items: Option<seq<ChannelHit>>)

  predicate HasHits(resp: SearchResponse) {
    resp.items.Some? && |resp.items.value| > 0
  }

  /** The channel id for a channel URL, asking `search` at most once. */
  function ExtractChannelId(url: string, search: SearchQuery -> Result<SearchResponse, ApiError>): (r: Result<string, FetchError>)
    ensures r == Failure(InvalidInput) <==> !IsHandle(HandleOf(url))
    ensures r == Failure(NotFound) <==>
              IsHandle(HandleOf(url)) && search(ChannelSearch(HandleOf(url))).Success?
              && !HasHits(search(ChannelSearch(HandleOf(url))).value)
    ensures r.Success? <==>
              IsHandle(HandleOf(url)) && search(ChannelSearch(HandleOf(url))).Success?
              && HasHits(search(ChannelSearch(HandleOf(url))).value)
    ensures r.Success? ==> r.value == search(ChannelSearch(HandleOf(url))).value.items.value[0].channelId
    ensures r.Failure? && r.error.Upstream? ==> search(ChannelSearch(HandleOf(url))) == Failure(r.error.cause)
  {
    var handle := HandleOf(url);
    if !IsHandle(handle) then Failure(InvalidInput)
    else match search(ChannelSearch(handle))
      case Failure(e) => Failure(Upstream(e))
      case Success(resp) =>
        if !HasHits(resp) then Failure(NotFound) else Success(resp.items.value[0].channelId)
  }

  /** An invalid handle is rejected before any request: the search is never consulted. */
  lemma InvalidHandleSendsNoRequest(url: string, s1: SearchQuery -> Result<SearchResponse, ApiError>,
                                    s2: SearchQuery -> Result<SearchResponse, ApiError>)
    requires !IsHandle(HandleOf(url))
    ensures ExtractChannelId(url, s1) == ExtractChannelId(url, s2) == Failure(InvalidInput)
  {
  }

  /** The only request issued is the channel search for the handle. */
  lemma OnlyChannelSearchIssued(url: string, s1: SearchQuery -> Result<SearchResponse, ApiError>,
                                s2: SearchQuery -> Result<SearchResponse, ApiError>)
    requires s1(ChannelSearch(HandleOf(url))) == s2(ChannelSearch(HandleOf(url)))
    ensures ExtractChannelId(url, s1) == ExtractChannelId(url, s2)
  {
  }

  /** For an absolute URL `scheme://authority/path...`, the path is what follows the
      authority up to the query or fragment. */
  lemma UrlPathOfAbsoluteUrl(scheme: string, authority: string, path: string, tail: string)
    requires IsScheme(scheme)
    requires '/' !in authority && '?' !in authority && '#' !in authority
    requires |path| > 0 && path[0] == '/' && '?' !in path && '#' !in path && ';' !in path
    requires |tail| > 0 ==> tail[0] == '?' || tail[0] == '#'
    requires SafeText(authority) && SafeText(path) && SafeText(tail)
    ensures UrlPath(scheme + "://" + authority + path + tail) == path
  {
    var url := scheme + "://" + authority + path + tail;
    assert SafeText(scheme) by {
      forall i | 0 <= i < |scheme|
        ensures !IsUnsafe(scheme[i])
      {
        assert IsSchemeChar(scheme[i]);
      }
    }
    assert url[0] == scheme[0];
    AlreadyClean(url);
    SplitAbsoluteUrl(scheme, authority, path, tail);
    PathWithoutParams(url);
  }

  /** A path without `;` has no parameters to drop. */
  lemma PathWithoutParams(u: string)
    requires ';' !in SplitPath(u)
    ensures PathOf(u) == SplitPath(u)
  {
  }

  lemma SplitAbsoluteUrl(scheme: string, authority: string, path: string, tail: string)
    requires IsScheme(scheme)
    requires '/' !in authority && '?' !in authority && '#' !in authority
    requires |path| > 0 && path[0] == '/' && '?' !in path && '#' !in path
    requires |tail| > 0 ==> tail[0] == '?' || tail[0] == '#'
    ensures SplitPath(scheme + "://" + authority + path + tail) == path
  {
    var url := scheme + "://" + authority + path + tail;
    AfterSchemeOf(scheme, "//" + authority + path + tail);
    assert url == scheme + ":" + ("//" + authority + path + tail);
    AfterAuthorityOf(authority, path + tail);
    assert "//" + authority + path + tail == "//" + authority + (path + tail);
    BeforeQueryOrFragment(path, tail);
  }

  lemma AfterSchemeOf(scheme: string, rest: string)
    requires IsScheme(scheme)
    ensures AfterScheme(scheme + ":" + rest) == rest
  {
    assert ':' !in scheme;
    var url := scheme + ":" + rest;
    assert url == scheme + (":" + rest);
    IndexOfPrefix(scheme, ':', ":" + rest);
    assert url[..|scheme|] == scheme;
    assert url[|scheme| + 1..] == rest;
  }

  lemma AfterAuthorityOf(authority: string, rest: string)
    requires '/' !in authority && '?' !in authority && '#' !in authority
    requires |rest| > 0 && rest[0] == '/'
    ensures AfterAuthority("//" + authority + rest) == rest
  {
    var s := "//" + authority + rest;
    assert s[..2] == "//";
    assert s[2..] == authority + rest;
    AuthorityRestSkips(authority, rest);
  }

  lemma BeforeQueryOrFragment(path: string, tail: string)
    requires '?' !in path && '#' !in path
    requires |tail| > 0 ==> tail[0] == '?' || tail[0] == '#'
    ensures Before(Before(path + tail, '#'), '?') == path
  {
    var rest := path + tail;
    if |tail| == 0 {
      assert rest == path;
    } else if tail[0] == '#' {
      IndexOfPrefix(path, '#', tail);
      assert rest[..|path|] == path;
    } else {
      IndexOfPrefix(path, '?', tail);
      assert rest[..|path|] == path;
      var t := Before(rest, '#');
      if '#' in rest {
        var i := IndexOf(rest, '#').value;
        assert i >= |path|;
        assert t == rest[..i];
        assert t == path + rest[|path|..i];
        IndexOfPrefix(path, '?', rest[|path|..i]);
      } else {
        assert t == rest;
      }
    }
  }

  lemma {:induction false} IndexOfPrefix(p: string, c: char, t: string)
    requires c !in p
    requires |t| > 0 && t[0] == c
    ensures IndexOf(p + t, c) == Some(|p|)
  {
    if |p| > 0 {
      assert (p + t)[1..] == p[1..] + t;
      IndexOfPrefix(p[1..], c, t);
    }
  }

  lemma {:induction false} AuthorityRestSkips(authority: string, rest: string)
    requires '/' !in authority && '?' !in authority && '#' !in authority
    requires |rest| > 0 && rest[0] == '/'
    ensures AuthorityRest(authority + rest) == rest
  {
    if |authority| > 0 {
      assert (authority + rest)[1..] == authority[1..] + rest;
      AuthorityRestSkips(authority[1..], rest);
    }
  }

  /** A text that starts with a visible character and holds no tab or line break is split as it is. */
  lemma AlreadyClean(url: string)
    requires |url| > 0 && !IsControlOrSpace(url[0]) && SafeText(url)
    ensures CleanUrl(url) == url
  {
  }

  /** A locator with no colon, query, fragment, leading `/` or deleted character is all path. */
  lemma PlainLocatorIsPath(url: string)
    requires ':' !in url && '?' !in url && '#' !in url && ';' !in url && SafeText(url)
    requires |url| > 0 && url[0] != '/' && !IsControlOrSpace(url[0])
    ensures UrlPath(url) == url
  {
    AlreadyClean(url);
    SplitPlainLocator(url);
    PathWithoutParams(url);
  }

  lemma SplitPlainLocator(url: string)
    requires ':' !in url && '?' !in url && '#' !in url
    requires |url| > 0 && url[0] != '/'
    ensures SplitPath(url) == url
  {
    assert IndexOf(url, ':').None?;
    assert AfterScheme(url) == url;
    assert !(|url| >= 2 && url[..2] == "//") by {
      if |url| >= 2 {
        assert url[..2][0] == url[0];
      }
    }
    assert AfterAuthority(url) == url;
    assert Before(url, '#') == url;
  }

  /** Tabs and line breaks anywhere in a URL that starts with a visible character do not
      change its path: it is the path of the URL with them deleted. */
  lemma UnsafeCharsIgnored(url: string)
    requires |url| > 0 && !IsControlOrSpace(url[0])
    ensures UrlPath(url) == UrlPath(RemoveUnsafe(url))
  {
    CleanDeletes(url);
    SameCleanSamePath(url, RemoveUnsafe(url));
  }

  lemma CleanDeletes(url: string)
    requires |url| > 0 && !IsControlOrSpace(url[0])
    ensures CleanUrl(url) == CleanUrl(RemoveUnsafe(url))
  {
    RemoveUnsafeHead(url);
    var d := RemoveUnsafe(url);
    assert CleanUrl(url) == d;
    AlreadyClean(d);
  }

  lemma SameCleanSamePath(a: string, b: string)
    requires CleanUrl(a) == CleanUrl(b)
    ensures UrlPath(a) == UrlPath(b)
  {
  }

  /** A tab or line break typed between the host's `/` and the handle is deleted, so
      the handle is still found. */
  lemma UnsafeBeforeHandle(scheme: string, authority: string, handle: string, c: char)
    requires IsScheme(scheme)
    requires PlainPart(authority)
    requires IsHandle(handle) && PlainPart(handle) && ';' !in handle
    requires IsUnsafe(c)
    ensures HandleOf(scheme + "://" + authority + "/" + [c] + handle) == handle
  {
    assert handle[|handle| - 1] in handle;
    PathAroundUnsafe(scheme, authority, handle, c);
    StripOneSlash(handle);
  }


  lemma StripOneSlash(m: string)
    requires |m| > 0 ==> m[0] != '/' && m[|m| - 1] != '/'
    ensures StripSlashes("/" + m) == m
  {
    var s := "/" + m;
    assert Slashes(0) == [];
    assert Slashes(1) == "/" by {
      assert Slashes(1) == Slashes(0) + "/";
    }
    assert Slashes(1) + m + Slashes(0) == s;
    StripSlashesUnique(1, m, 0);
  }

  lemma PathAroundUnsafe(scheme: string, authority: string, handle: string, c: char)
    requires IsScheme(scheme)
    requires PlainPart(authority)
    requires '?' !in handle && '#' !in handle && ';' !in handle && SafeText(handle)
    requires IsUnsafe(c)
    ensures UrlPath(scheme + "://" + authority + "/" + [c] + handle) == "/" + handle
  {
    FrontIsSafe(scheme, authority);
    DeleteBeforeHandle(scheme, authority, handle, c);
    PathOfHandleUrl(scheme, authority, handle);
  }

  lemma FrontIsSafe(scheme: string, authority: string)
    requires forall j :: 0 <= j < |scheme| ==> IsSchemeChar(scheme[j])
    requires SafeText(authority)
    ensures SafeText(scheme + "://" + authority + "/")
  {
    assert SafeText(scheme) by {
      forall i | 0 <= i < |scheme|
        ensures !IsUnsafe(scheme[i])
      {
        assert IsSchemeChar(scheme[i]);
      }
    }
  }

  lemma DeleteBeforeHandle(scheme: string, authority: string, handle: string, c: char)
    requires |scheme| > 0 && IsAsciiLetter(scheme[0])
    requires SafeText(scheme + "://" + authority + "/") && SafeText(handle)
    requires IsUnsafe(c)
    ensures UrlPath(scheme + "://" + authority + "/" + [c] + handle) == UrlPath(scheme + "://" + authority + "/" + handle)
  {
    var front := scheme + "://" + authority + "/";
    var url := front + [c] + handle;
    DeleteOne(front, c, handle);
    assert url[0] == scheme[0];
    UnsafeCharsIgnored(url);
  }

  lemma PathOfHandleUrl(scheme: string, authority: string, handle: string)
    requires IsScheme(scheme)
    requires PlainPart(authority)
    requires '?' !in handle && '#' !in handle && ';' !in handle && SafeText(handle)
    ensures UrlPath(scheme + "://" + authority + "/" + handle) == "/" + handle
  {
    var p := "/" + handle;
    assert '?' !in p && '#' !in p && ';' !in p && SafeText(p);
    assert scheme + "://" + authority + "/" + handle == scheme + "://" + authority + p + "";
    UrlPathOfAbsoluteUrl(scheme, authority, p, "");
  }

  lemma DeleteOne(a: string, c: char, b: string)
    requires SafeText(a) && SafeText(b) && IsUnsafe(c)
    ensures RemoveUnsafe(a + [c] + b) == a + b
  {
    RemoveUnsafeAppend(a + [c], b);
    RemoveUnsafeAppend(a, [c]);
    assert RemoveUnsafe([c]) == [] by {
      assert [c][1..] == [];
    }
    assert a + [] == a;
  }

  /** `https://youtube.com/<tab>@name` searches for `@name`. */
  lemma TabBeforeHandle(url: string)
    requires url == "https" + "://" + "youtube.com" + "/" + ['\t'] + "@name"
    ensures HandleOf(url) == "@name"
  {
    ExampleParts();
    assert IsHandle("@name") && PlainPart("@name") && ';' !in "@name";
    UnsafeBeforeHandle("https", "youtube.com", "@name", '\t');
  }

  lemma ExampleParts()
    ensures IsScheme("https") && PlainPart("youtube.com") && PlainPart("name") && ';' !in "name"
  {
  }

  /** For a scheme with parameters, such as `https`, the `;parameters` after the last
      path segment are cut off the path. */
  lemma ParamsAfterPath(scheme: string, authority: string, segment: string, params: string)
    requires IsScheme(scheme)
    requires HasParams(Seqs.Map(Lower, scheme))
    requires PlainPart(authority)
    requires PlainPart(segment) && ';' !in segment
    requires PlainPart(params)
    ensures UrlPath(scheme + "://" + authority + "/" + segment + ";" + params) == "/" + segment
  {
    var url := scheme + "://" + authority + "/" + segment + ";" + params;
    var p := "/" + segment + ";" + params;
    assert UrlPath(url) == PathOf(url) by {
      ParamsUrlClean(scheme, authority, segment, params);
    }
    assert SplitPath(url) == p by {
      ParamsUrlSplit(scheme, authority, segment, params);
    }
    assert SchemeOf(url) == Seqs.Map(Lower, scheme) by {
      ParamsUrlScheme(scheme, authority, segment, params);
    }
    assert DropParams(p) == "/" + segment by {
      DropParamsOf(segment, params);
    }
    ParamsPath(url, Seqs.Map(Lower, scheme), p, "/" + segment);
  }

  /** The steps of a URL's path with parameters, put together. */
  lemma ParamsPath(url: string, scheme: string, p: string, r: string)
    requires UrlPath(url) == PathOf(url)
    requires SchemeOf(url) == scheme && HasParams(scheme)
    requires SplitPath(url) == p && DropParams(p) == r
    ensures UrlPath(url) == r
  {
    ParamsScheme(url, scheme);
  }

  lemma ParamsUrlSplit(scheme: string, authority: string, segment: string, params: string)
    requires IsScheme(scheme)
    requires PlainPart(authority) && PlainPart(segment) && PlainPart(params)
    ensures SplitPath(scheme + "://" + authority + "/" + segment + ";" + params) == "/" + segment + ";" + params
  {
    Regroup(scheme, authority, segment, params);
    SplitAbsoluteUrl(scheme, authority, "/" + segment + ";" + params, "");
  }

  lemma ParamsUrlScheme(scheme: string, authority: string, segment: string, params: string)
    requires IsScheme(scheme)
    ensures SchemeOf(scheme + "://" + authority + "/" + segment + ";" + params) == Seqs.Map(Lower, scheme)
  {
    Regroup(scheme, authority, segment, params);
    SchemeOfPrefix(scheme, "//" + authority + ("/" + segment + ";" + params));
  }

  lemma ParamsUrlClean(scheme: string, authority: string, segment: string, params: string)
    requires IsScheme(scheme)
    requires PlainPart(authority) && PlainPart(segment) && PlainPart(params)
    ensures UrlPath(scheme + "://" + authority + "/" + segment + ";" + params)
            == PathOf(scheme + "://" + authority + "/" + segment + ";" + params)
  {
    var url := scheme + "://" + authority + "/" + segment + ";" + params;
    FrontIsSafe(scheme, authority);
    assert url == (scheme + "://" + authority + "/") + segment + ";" + params;
    assert url[0] == scheme[0];
    AlreadyClean(url);
  }

  lemma Regroup(scheme: string, authority: string, segment: string, params: string)
    ensures scheme + "://" + authority + "/" + segment + ";" + params
            == scheme + "://" + authority + ("/" + segment + ";" + params) + ""
            == scheme + "://" + authority + ("/" + segment + ";" + params)
            == scheme + ":" + ("//" + authority + ("/" + segment + ";" + params))
  {
  }

  lemma ParamsScheme(u: string, scheme: string)
    requires SchemeOf(u) == scheme && HasParams(scheme)
    ensures PathOf(u) == DropParams(SplitPath(u))
  {
  }

  lemma SchemeOfPrefix(scheme: string, rest: string)
    requires IsScheme(scheme)
    ensures SchemeOf(scheme + ":" + rest) == Seqs.Map(Lower, scheme)
  {
    assert ':' !in scheme;
    var url := scheme + ":" + rest;
    assert url == scheme + (":" + rest);
    IndexOfPrefix(scheme, ':', ":" + rest);
    var head := url[..|scheme|];
    assert head == scheme;
    assert forall j :: 0 <= j < |scheme| ==> IsSchemeChar(url[j]) by {
      forall j | 0 <= j < |scheme|
        ensures IsSchemeChar(url[j])
      {
        assert url[j] == scheme[j];
      }
    }
    assert SchemeOf(url) == Seqs.Map(Lower, head);
  }

  lemma DropParamsOf(segment: string, params: string)
    requires '/' !in segment && ';' !in segment && '/' !in params
    ensures DropParams("/" + segment + ";" + params) == "/" + segment
  {
    var p := "/" + segment + ";" + params;
    assert LastIndexOf(p, '/') == Some(0) by {
      forall i | 0 < i < |p|
        ensures p[i] != '/'
      {
        if i <= |segment| {
          assert p[i] == segment[i - 1];
        } else if i > |segment| + 1 {
          assert p[i] == params[i - |segment| - 2];
        }
      }
      var k := LastIndexOf(p, '/');
      assert k.Some? by {
        assert p[0] in p;
      }
    }
    assert p == ("/" + segment) + (";" + params);
    assert ';' !in "/" + segment;
    IndexOfPrefix("/" + segment, ';', ";" + params);
    assert p[0..] == p;
  }

  /** `;parameters` written after the handle of an `https` URL are not part of the handle. */
  lemma ParamsAfterHandle(scheme: string, authority: string, handle: string, params: string)
    requires IsScheme(scheme)
    requires HasParams(Seqs.Map(Lower, scheme))
    requires PlainPart(authority)
    requires IsHandle(handle) && PlainPart(handle) && ';' !in handle
    requires PlainPart(params)
    ensures HandleOf(scheme + "://" + authority + "/" + handle + ";" + params) == handle
  {
    var url := scheme + "://" + authority + "/" + handle + ";" + params;
    assert UrlPath(url) == "/" + handle by {
      ParamsAfterPath(scheme, authority, handle, params);
    }
    HandleFromPath(url, handle);
  }

  /** A URL whose path is `/` and then a handle carries that handle. */
  lemma HandleFromPath(url: string, handle: string)
    requires UrlPath(url) == "/" + handle
    requires IsHandle(handle) && '/' !in handle
    ensures HandleOf(url) == handle
  {
    assert handle[|handle| - 1] in handle;
    StripOneSlash(handle);
  }

  /** `https://youtube.com/@name;x` searches for `@name`. */
  lemma ParamsExample(url: string)
    requires url == "https" + "://" + "youtube.com" + "/" + "@name" + ";" + "x"
    ensures HandleOf(url) == "@name"
  {
    ExampleParts();
    assert Seqs.Map(Lower, "https") == "https";
    assert PlainPart("x");
    assert IsHandle("@name") && PlainPart("@name") && ';' !in "@name";
    ParamsAfterHandle("https", "youtube.com", "@name", "x");
  }

  /** A locator written without a scheme, such as `youtube.com/@name`, keeps its host in
      the path and so is rejected as carrying no handle. */
  lemma SchemelessLocatorRejected(host: string, name: string, search: SearchQuery -> Result<SearchResponse, ApiError>)
    requires |host| > 0 && host[0] != '@' && !IsControlOrSpace(host[0])
    requires forall i :: 0 <= i < |host| ==> host[i] !in ":?#/;\t\r\n"
    requires forall i :: 0 <= i < |name| ==> name[i] !in ":?#/;\t\r\n"
    ensures ExtractChannelId(host + "/@" + name, search) == Failure(InvalidInput)
  {
    var url := host + "/@" + name;
    assert url[0] == host[0] && host[0] != '/';
    assert url[|url| - 1] != '/' by {
      if |name| > 0 {
        assert url[|url| - 1] == name[|name| - 1];
      } else {
        assert url[|url| - 1] == '@';
      }
    }
    assert ':' !in url && '?' !in url && '#' !in url && ';' !in url && SafeText(url) by {
      forall i | 0 <= i < |url|
        ensures url[i] !in ":?#;\t\r\n"
      {
        if i < |host| {
          assert url[i] == host[i];
        } else if i >= |host| + 2 {
          assert url[i] == name[i - |host| - 2];
        }
      }
    }
    PlainLocatorIsPath(url);
    StripSlashesUnique(0, url, 0);
    assert Slashes(0) + url + Slashes(0) == url;
  }
}
