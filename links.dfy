/**
 * The event's links: `generateEventURL` and `uid`. The host extraction in `uid`
 * is `preg_replace('@https?://([^/]+)/?.*@', '$1', $url)`, written out here for
 * that one pattern: the leftmost match is replaced by the host it captured, the
 * text before it is kept, `.*` stops at the first LF, and the search goes on
 * after the match.
 */
module Links {
  import opened Php

  datatype Option<T> = None | Some(value: T)

  /** `generateEventURL($id, $baseURL)`. */
  function EventUrl(id: string, baseURL: string): string {
    if Empty(baseURL) then "" else baseURL + "/schedule/view?event=" + id
  }

  /** There is a link exactly when the base URL is set, and it names the event. */
  lemma EventUrlForm(id: string, baseURL: string)
    ensures EventUrl(id, baseURL) == "" <==> Empty(baseURL)
    ensures !Empty(baseURL) ==> var r := EventUrl(id, baseURL);
      r[..|baseURL|] == baseURL && r[|r| - |id|..] == id
  {
  }

  /** Length of the "https://" or "http://" that starts at i; 0 when neither does. */
  function SchemeAt(s: string, i: nat): (n: nat)
    requires i <= |s|
    ensures n == 0 || n == 7 || n == 8
    ensures n > 0 ==> i + n <= |s|
  {
    if i + 8 <= |s| && s[i..i + 8] == "https://" then 8
    else if i + 7 <= |s| && s[i..i + 7] == "http://" then 7
    else 0
  }

  /** The pattern matches at i: a scheme followed by at least one character other than '/'. */
  predicate MatchesAt(s: string, i: nat)
    requires i <= |s|
  {
    var n := SchemeAt(s, i);
    n > 0 && i + n < |s| && s[i + n] != '/'
  }

  /** The leftmost position at or after i where the pattern matches. */
  function FirstMatch(s: string, i: nat): (r: Option<nat>)
    requires i <= |s|
    ensures r.Some? ==> i <= r.value < |s| && MatchesAt(s, r.value)
    ensures r.Some? ==> forall k :: i <= k < r.value ==> !MatchesAt(s, k)
    ensures r.None? ==> forall k :: i <= k <= |s| ==> !MatchesAt(s, k)
    decreases |s| - i
  {
    if MatchesAt(s, i) then Some(i)
    else if i == |s| then None
    else FirstMatch(s, i + 1)
  }

  /** The first index at or after j that holds ch; |s| when there is none. */
  function IndexFrom(s: string, j: nat, ch: char): (h: nat)
    requires j <= |s|
    ensures j <= h <= |s|
    ensures forall k :: j <= k < h ==> s[k] != ch
    ensures h < |s| ==> s[h] == ch
    decreases |s| - j
  {
    if j == |s| || s[j] == ch then j else IndexFrom(s, j + 1, ch)
  }

  /** IndexFrom is the only index with its two properties. */
  lemma {:induction false} IndexFromUnique(s: string, j: nat, ch: char, h: nat)
    requires j <= h <= |s|
    requires forall k :: j <= k < h ==> s[k] != ch
    requires h < |s| ==> s[h] == ch
    ensures IndexFrom(s, j, ch) == h
    decreases h - j
  {
    if j < h {
      IndexFromUnique(s, j + 1, ch, h);
    }
  }

  /** `preg_replace('@https?://([^/]+)/?.*@', '$1', $s)`. */
  function ReplaceHost(s: string): string
    decreases |s|
  {
    match FirstMatch(s, 0)
    case None => s
    case Some(i) =>
      var j := i + SchemeAt(s, i);
      var h := IndexFrom(s, j, '/');
      var e := IndexFrom(s, h, '\n');
      s[..i] + s[j..h] + ReplaceHost(s[e..])
  }

  /** `uid($id, $url)`; serverName stands for `$_SERVER['SERVER_NAME']`. */
  function Uid(id: string, url: string, serverName: string): string {
    if Empty(url) then id + "@" + serverName else id + "@" + ReplaceHost(url)
  }

  /** The UID is the id and '@', then the server name when there is no base URL. */
  lemma UidForm(id: string, url: string, serverName: string)
    ensures var r := Uid(id, url, serverName);
      |r| > |id| && r[..|id| + 1] == id + "@"
      && (Empty(url) ==> r[|id| + 1..] == serverName)
  {
  }

  /** For a URL `http(s)://host` or `http(s)://host/...` on one line, the UID is
      the id, '@' and the host. */
  lemma UidHost(id: string, url: string, serverName: string, scheme: string, host: string, rest: string)
    requires scheme == "http://" || scheme == "https://"
    requires url == scheme + host + rest
    requires host != [] && '/' !in host
    requires rest == [] || rest[0] == '/'
    requires '\n' !in rest
    ensures Uid(id, url, serverName) == id + "@" + host
  {
    assert host[0] in host;
    SchemeMatch(url, scheme, host, rest);
    HostEnd(url, scheme, host, rest);
    LineEnd(url, scheme + host, rest);
    ReplaceWhole(url, |scheme|, |scheme| + |host|);
    assert url[|scheme|..|scheme| + |host|] == host;
  }

  /** The pattern matches at the very start of such a URL, after the whole scheme. */
  lemma SchemeMatch(url: string, scheme: string, host: string, rest: string)
    requires scheme == "http://" || scheme == "https://"
    requires url == scheme + host + rest
    requires host != [] && host[0] != '/'
    ensures SchemeAt(url, 0) == |scheme| && FirstMatch(url, 0) == Some(0)
  {
    assert url[..|scheme|] == scheme;
    if scheme == "http://" {
      assert url[4] == ':';
      assert url[0..7] == "http://";
    } else {
      assert url[0..8] == "https://";
    }
    assert url[|scheme|] == host[0];
  }

  /** The host runs up to the first '/' after the scheme. */
  lemma HostEnd(url: string, scheme: string, host: string, rest: string)
    requires url == scheme + host + rest
    requires '/' !in host
    requires rest == [] || rest[0] == '/'
    ensures IndexFrom(url, |scheme|, '/') == |scheme| + |host|
  {
    var j, h := |scheme|, |scheme| + |host|;
    forall k | j <= k < h
      ensures url[k] != '/'
    {
      assert url[k] == host[k - j];
    }
    if h < |url| {
      assert url[h] == rest[0];
    }
    IndexFromUnique(url, j, '/', h);
  }

  /** Without a LF after the host, `.*` runs to the end of the URL. */
  lemma LineEnd(url: string, head: string, rest: string)
    requires url == head + rest && '\n' !in rest
    ensures IndexFrom(url, |head|, '\n') == |url|
  {
    forall k | |head| <= k < |url|
      ensures url[k] != '\n'
    {
      assert url[k] == rest[k - |head|];
    }
    IndexFromUnique(url, |head|, '\n', |url|);
  }

  /** A match at the start that runs to the end leaves only the captured host. */
  lemma ReplaceWhole(url: string, j: nat, h: nat)
    requires j <= h <= |url|
    requires FirstMatch(url, 0) == Some(0) && SchemeAt(url, 0) == j
    requires IndexFrom(url, j, '/') == h && IndexFrom(url, h, '\n') == |url|
    ensures ReplaceHost(url) == url[j..h]
  {
    assert url[|url|..] == [];
    assert ReplaceHost([]) == [] by {
      assert FirstMatch([], 0) == None;
    }
    assert url[..0] == [];
  }

  /** "://" starts at i. */
  predicate SeparatorAt(s: string, i: nat) {
    i + 3 <= |s| && s[i] == ':' && s[i + 1] == '/' && s[i + 2] == '/'
  }

  /** A URL without "://" is not matched and is used whole as the host part. */
  lemma UidWithoutScheme(id: string, url: string, serverName: string)
    requires !Empty(url)
    requires forall i :: 0 <= i < |url| ==> !SeparatorAt(url, i)
    ensures Uid(id, url, serverName) == id + "@" + url
  {
    forall k | 0 <= k <= |url|
      ensures !MatchesAt(url, k)
    {
      assert !SeparatorAt(url, k + 4) && !SeparatorAt(url, k + 5);
    }
    assert FirstMatch(url, 0) == None;
  }
}
