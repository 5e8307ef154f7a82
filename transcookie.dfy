/** Package transcookie: the parser of the `Set-Cookie` header the
    translation page answers with, and the cache of those cookies keyed by
    the part of the service's host name after "translate"
    (transcookie/transcookie.go). The GET that fetches the header, the URL
    parser and `time.Parse` are inputs of the model. */
module TransCookie {
  import opened Common

  /** An instant, in seconds since 1970 (`time.Time`). */
  type Instant = int

  /** The zero `time.Time`, January 1 of year 1. */
  const ZeroTime: Instant := -62135596800

  /** The fields of `http.Cookie` the parser can set. */
  datatype Cookie = Cookie(
    name: string,
    value: string,
    path: string,
    domain: string,
    expires: Instant,
    httpOnly: bool)

  /** `http.Cookie{}`. */
  const EmptyCookie: Cookie := Cookie("", "", "", "", ZeroTime, false)

  /** `time.Parse("Mon, 02-Jan-2006 15:04:05 MST", v)`: `None` when the
      value does not fit the layout. */
  type DateParser = string -> Option<Instant>

  // ------------------------------------------------------------ the scanner

  /** The first index at or after i holding c, or |s|. */
  function IndexFrom(s: string, i: nat, c: char): (j: nat)
    requires i <= |s|
    ensures i <= j <= |s|
    ensures j < |s| ==> s[j] == c
    ensures forall k :: i <= k < j ==> s[k] != c
    decreases |s| - i
  {
    if i == |s| || s[i] == c then i else IndexFrom(s, i + 1, c)
  }

  /** The first index at or after i that holds neither a space nor ';'. */
  function SkipSeparators(s: string, i: nat): (j: nat)
    requires i <= |s|
    ensures i <= j <= |s|
    ensures forall k :: i <= k < j ==> s[k] == ' ' || s[k] == ';'
    ensures j < |s| ==> s[j] != ' ' && s[j] != ';'
    decreases |s| - i
  {
    if i < |s| && (s[i] == ' ' || s[i] == ';') then SkipSeparators(s, i + 1) else i
  }

  /** The `switch k` of one segment: "expires", "path" and "domain" set
      their field, any other key sets the name and the value. */
  function Apply(c: Cookie, k: string, v: string, parseDate: DateParser): Result<Cookie>
  {
    if k == "expires" then
      match parseDate(v)
      case None => Err(BadExpires)
      case Some(t) => Ok(c.(expires := t))
    else if k == "path" then Ok(c.(path := v))
    else if k == "domain" then Ok(c.(domain := v))
    else Ok(c.(name := k, value := v))
  }

  /** The parse of the segments from index r on, into the cookie c built
      so far. The key runs up to the first '=', the value from there up
      to the first ';' after the segment's start; a ';' before the '='
      makes `cookieStr[m+1:r]` panic. */
  function ParseFrom(s: string, r: nat, c: Cookie, parseDate: DateParser): Result<Cookie>
    requires r <= |s|
    decreases |s| - r
  {
    if r == |s| then Ok(c)
    else
      var m := IndexFrom(s, r, '=');
      if m == |s| then Ok(c)
      else
        var e := IndexFrom(s, r, ';');
        if e < m + 1 then Err(RuntimePanic("slice bounds out of range"))
        else
          match Apply(c, s[r..m], s[m + 1..e], parseDate)
          case Err(err) => Err(err)
          case Ok(d) => ParseFrom(s, SkipSeparators(s, e), d, parseDate)
  }

  /** One round of the parse, with the indices of its '=' and its ';'. */
  lemma ParseFromNext(s: string, r: nat, c: Cookie, parseDate: DateParser, m: nat, e: nat)
    requires r < |s| && m == IndexFrom(s, r, '=') && m < |s| && e == IndexFrom(s, r, ';') && m + 1 <= e
    ensures Apply(c, s[r..m], s[m + 1..e], parseDate).Err?
        ==> ParseFrom(s, r, c, parseDate) == Err(Apply(c, s[r..m], s[m + 1..e], parseDate).error)
    ensures Apply(c, s[r..m], s[m + 1..e], parseDate).Ok?
        ==> ParseFrom(s, r, c, parseDate) == ParseFrom(s, SkipSeparators(s, e), Apply(c, s[r..m], s[m + 1..e], parseDate).value, parseDate)
  {
  }

  /** What `parseCookieStr(cookieStr)` returns. */
  function Parse(s: string, parseDate: DateParser): Result<Cookie>
  {
    ParseFrom(s, 0, EmptyCookie.(httpOnly := true), parseDate)
  }

  /** `parseCookieStr`: the three indices l, m, r of the source. */
  method ParseCookieStr(cookieStr: string, parseDate: DateParser) returns (res: Result<Cookie>)
    ensures res == Parse(cookieStr, parseDate)
  {
    var l, m, r := 0, 0, 0;
    var cookie := EmptyCookie.(httpOnly := true);
    while r < |cookieStr|
      invariant l == m == r <= |cookieStr|
      invariant ParseFrom(cookieStr, r, cookie, parseDate) == Parse(cookieStr, parseDate)
      decreases |cookieStr| - r
    {
      while m < |cookieStr| && cookieStr[m] != '='
        invariant r <= m <= |cookieStr|
        invariant IndexFrom(cookieStr, m, '=') == IndexFrom(cookieStr, r, '=')
        decreases |cookieStr| - m
      {
        m := m + 1;
      }
      if m >= |cookieStr| {
        break;
      }
      var k := cookieStr[l..m];
      ghost var start := r;
      while r < |cookieStr| && cookieStr[r] != ';'
        invariant start <= r <= |cookieStr|
        invariant IndexFrom(cookieStr, r, ';') == IndexFrom(cookieStr, start, ';')
        decreases |cookieStr| - r
      {
        r := r + 1;
      }
      if m + 1 > r {
        return Err(RuntimePanic("slice bounds out of range"));
      }
      var v := cookieStr[m + 1..r];
      var next := Apply(cookie, k, v, parseDate);
      ParseFromNext(cookieStr, l, cookie, parseDate, m, r);
      if next.Err? {
        return Err(next.error);
      }
      cookie := next.value;
      ghost var end := r;
      while r < |cookieStr| && (cookieStr[r] == ' ' || cookieStr[r] == ';')
        invariant end <= r <= |cookieStr|
        invariant SkipSeparators(cookieStr, r) == SkipSeparators(cookieStr, end)
        decreases |cookieStr| - r
      {
        r := r + 1;
      }
      l := r;
      m := r;
    }
    return Ok(cookie);
  }

  // ------------------------------------------------------ what a parse means

  /** Each key sets its own field and leaves every other one alone. */
  lemma ApplyFields(c: Cookie, k: string, v: string, parseDate: DateParser)
    ensures Apply(c, k, v, parseDate).Err? <==> k == "expires" && parseDate(v).None?
    ensures Apply(c, k, v, parseDate).Err? ==> Apply(c, k, v, parseDate).error == BadExpires
    ensures k == "expires" && parseDate(v).Some? ==> Apply(c, k, v, parseDate) == Ok(c.(expires := parseDate(v).value))
    ensures k == "path" ==> Apply(c, k, v, parseDate) == Ok(c.(path := v))
    ensures k == "domain" ==> Apply(c, k, v, parseDate) == Ok(c.(domain := v))
    ensures k != "expires" && k != "path" && k != "domain" ==> Apply(c, k, v, parseDate) == Ok(c.(name := k, value := v))
    ensures Apply(c, k, v, parseDate).Ok? ==> Apply(c, k, v, parseDate).value.httpOnly == c.httpOnly
  {
  }

  /** No segment changes `HttpOnly`, so every parsed cookie has it set. */
  lemma {:induction false} ParseFromKeepsHttpOnly(s: string, r: nat, c: Cookie, parseDate: DateParser)
    requires r <= |s|
    ensures ParseFrom(s, r, c, parseDate).Ok? ==> ParseFrom(s, r, c, parseDate).value.httpOnly == c.httpOnly
    decreases |s| - r
  {
    if r < |s| {
      var m := IndexFrom(s, r, '=');
      var e := IndexFrom(s, r, ';');
      if m < |s| && m + 1 <= e {
        var a := Apply(c, s[r..m], s[m + 1..e], parseDate);
        if a.Ok? {
          ParseFromKeepsHttpOnly(s, SkipSeparators(s, e), a.value, parseDate);
        }
      }
    }
  }

  lemma HttpOnlyAlwaysSet(s: string, parseDate: DateParser)
    ensures Parse(s, parseDate).Ok? ==> Parse(s, parseDate).value.httpOnly
  {
    ParseFromKeepsHttpOnly(s, 0, EmptyCookie.(httpOnly := true), parseDate);
  }

  /** Parsing stops at the first remainder without '=' (a trailing
      "HttpOnly", say) and returns the fields set so far. */
  lemma StopsWithoutEquals(s: string, r: nat, c: Cookie, parseDate: DateParser)
    requires r <= |s|
    requires forall k :: r <= k < |s| ==> s[k] != '='
    ensures ParseFrom(s, r, c, parseDate) == Ok(c)
  {
  }

  /** A ';' before the first '=' of the text makes the parse panic. */
  lemma PanicsOnSemicolonFirst(s: string, parseDate: DateParser)
    requires IndexFrom(s, 0, ';') < IndexFrom(s, 0, '=') < |s|
    ensures Parse(s, parseDate) == Err(RuntimePanic("slice bounds out of range"))
  {
  }

  /** One segment `k=v` followed by ';' (or the end of the text), where the
      key holds neither '=' nor ';' and the value holds no ';' (it may
      hold '='): the key and the value are exactly k and v, and the parse
      goes on after the separators that follow. */
  lemma SegmentStep(s: string, r: nat, c: Cookie, parseDate: DateParser, k: string, v: string)
    requires r + |k| + 1 + |v| <= |s|
    requires s[r..r + |k| + 1 + |v|] == k + "=" + v
    requires '=' !in k && ';' !in k && ';' !in v
    requires r + |k| + 1 + |v| == |s| || s[r + |k| + 1 + |v|] == ';'
    ensures var a := Apply(c, k, v, parseDate);
      ParseFrom(s, r, c, parseDate) == if a.Err? then Err(a.error) else ParseFrom(s, SkipSeparators(s, r + |k| + 1 + |v|), a.value, parseDate)
  {
    var m, e := r + |k|, r + |k| + 1 + |v|;
    var w := s[r..e];
    forall j | r <= j < m
      ensures s[j] != '=' && s[j] != ';'
    {
      assert s[j] == w[j - r] == k[j - r];
    }
    assert s[m] == w[|k|] == '=';
    forall j | m < j < e
      ensures s[j] != ';'
    {
      assert s[j] == w[j - r] == v[j - m - 1];
    }
    IndexAt(s, r, m, '=');
    IndexAt(s, r, e, ';');
    assert s[r..m] == w[..|k|] == k;
    assert s[m + 1..e] == w[|k| + 1..] == v;
    ParseFromNext(s, r, c, parseDate, m, e);
  }

  lemma IndexAt(s: string, i: nat, j: nat, c: char)
    requires i <= j <= |s|
    requires forall k :: i <= k < j ==> s[k] != c
    requires j == |s| || s[j] == c
    ensures IndexFrom(s, i, c) == j
  {
  }

  /** The first segment of the package's example, "NID=<v>;": the name
      is "NID" and the value is v whole, even when v holds '=' (as
      "204=Au7..." does). */
  lemma NidSegment(k: string, v: string, rest: string, parseDate: DateParser)
    requires k == "NID" && ';' !in v
    ensures var s := k + "=" + v + ";" + rest;
      Parse(s, parseDate) == ParseFrom(s, SkipSeparators(s, |k| + 1 + |v|), EmptyCookie.(httpOnly := true, name := k, value := v), parseDate)
  {
    var s := k + "=" + v + ";" + rest;
    var e := |k| + 1 + |v|;
    assert s[0..e] == k + "=" + v;
    assert s[e] == ';';
    assert '=' !in k && ';' !in k;
    SegmentStep(s, 0, EmptyCookie.(httpOnly := true), parseDate, k, v);
  }

  /** Every loop round moves r past the value, so r strictly increases. */
  lemma SegmentAdvances(s: string, r: nat)
    requires r < |s| && IndexFrom(s, r, '=') < |s|
    requires IndexFrom(s, r, '=') + 1 <= IndexFrom(s, r, ';')
    ensures r < SkipSeparators(s, IndexFrom(s, r, ';'))
  {
  }

  // ------------------------------------------------------------- the cache

  const ServiceHost: string := "translate.google"

  /** The host check and the key of `get`: the host name must be longer
      than "translate.google" and start with it; the key drops the
      leading "translate". */
  function CacheKey(hostname: string): Result<string>
  {
    if |hostname| <= |ServiceHost| || hostname[..|ServiceHost|] != ServiceHost then Err(InvalidServiceURL)
    else Ok(hostname[|"translate"|..])
  }

  lemma CacheKeyMeans(hostname: string, key: string)
    ensures CacheKey(hostname).Err? <==> !(|hostname| > |ServiceHost| && hostname[..|ServiceHost|] == ServiceHost)
    ensures CacheKey(hostname).Err? ==> CacheKey(hostname).error == InvalidServiceURL
    ensures CacheKey(hostname) == Ok(key)
        <==> hostname == "translate" + key && |key| > |".google"| && key[..|".google"|] == ".google"
  {
    if hostname == "translate" + key && |key| > |".google"| && key[..|".google"|] == ".google" {
      assert hostname[..|ServiceHost|] == "translate" + key[..|".google"|];
      assert hostname[|"translate"|..] == key;
    }
    if CacheKey(hostname) == Ok(key) {
      assert hostname == hostname[..|"translate"|] + key;
      assert hostname[..|"translate"|] == ServiceHost[..|"translate"|];
      assert key[..|".google"|] == hostname[|"translate"|..|ServiceHost|];
    }
  }

  /** `update`: the GET's `Set-Cookie` header (`None` when the request
      failed) is parsed; a cookie is stored under its own domain. */
  function Refresh(cookies: map<string, Cookie>, header: Option<string>, parseDate: DateParser)
    : (Result<Cookie>, map<string, Cookie>)
  {
    if header.None? then (Err(Transport), cookies)
    else
      match Parse(header.value, parseDate)
      case Err(err) => (Err(err), cookies)
      case Ok(c) => (Ok(c), cookies[c.domain := c])
  }

  /** `get` at the instant `now`: the host name (`None` when `url.Parse`
      fails) is checked; a stored cookie that has not expired is served,
      anything else is refreshed. */
  function Lookup(cookies: map<string, Cookie>, hostname: Option<string>, now: Instant,
                  header: Option<string>, parseDate: DateParser): (Result<Cookie>, map<string, Cookie>)
  {
    if hostname.None? then (Err(InvalidServiceURL), cookies)
    else
      match CacheKey(hostname.value)
      case Err(err) => (Err(err), cookies)
      case Ok(key) =>
        if key in cookies && cookies[key].expires > now then (Ok(cookies[key]), cookies)
        else Refresh(cookies, header, parseDate)
  }

  /** A refresh changes at most the entry of the new cookie's domain. */
  lemma RefreshStores(cookies: map<string, Cookie>, header: Option<string>, parseDate: DateParser)
    ensures var (r, after) := Refresh(cookies, header, parseDate);
      (r.Err? ==> after == cookies)
      && (r.Ok? ==> r.value.domain in after && after[r.value.domain] == r.value
                    && after.Keys == cookies.Keys + {r.value.domain}
                    && forall d :: d in cookies && d != r.value.domain ==> after[d] == cookies[d])
  {
  }

  /** A lookup serves the cache exactly when the host is valid and its
      entry has not expired; it then changes nothing. */
  lemma LookupHit(cookies: map<string, Cookie>, hostname: string, now: Instant,
                  header: Option<string>, parseDate: DateParser, key: string)
    requires CacheKey(hostname) == Ok(key)
    ensures key in cookies && cookies[key].expires > now
        ==> Lookup(cookies, Some(hostname), now, header, parseDate) == (Ok(cookies[key]), cookies)
    ensures !(key in cookies && cookies[key].expires > now)
        ==> Lookup(cookies, Some(hostname), now, header, parseDate) == Refresh(cookies, header, parseDate)
  {
  }

  /** A bad host name is refused before the cache or the network is
      consulted. */
  lemma LookupRejectsHost(cookies: map<string, Cookie>, hostname: string, now: Instant,
                          header: Option<string>, parseDate: DateParser)
    requires !(|hostname| > |ServiceHost| && hostname[..|ServiceHost|] == ServiceHost)
    ensures Lookup(cookies, Some(hostname), now, header, parseDate) == (Err(InvalidServiceURL), cookies)
  {
  }

  /** `transCookiesCache`: the cookies by key. */
  class CookieCache {
    var cookies: map<string, Cookie>

    /** `newCache`. */
    constructor ()
      ensures cookies == map[]
    {
      cookies := map[];
    }

    /** `update`; the delay and the GET are replaced by the header the GET
        would have produced. */
    method Update(header: Option<string>, parseDate: DateParser) returns (r: Result<Cookie>)
      modifies this
      ensures (r, cookies) == Refresh(old(cookies), header, parseDate)
    {
      if header.None? {
        return Err(Transport);
      }
      r := ParseCookieStr(header.value, parseDate);
      if r.Err? {
        return;
      }
      var cookie := r.value;
      cookies := cookies[cookie.domain := cookie];
    }

    /** `get`. */
    method Get(hostname: Option<string>, now: Instant, header: Option<string>, parseDate: DateParser)
      returns (r: Result<Cookie>)
      modifies this
      ensures (r, cookies) == Lookup(old(cookies), hostname, now, header, parseDate)
    {
      if hostname.None? {
        return Err(InvalidServiceURL);
      }
      var h := hostname.value;
      if |h| <= |ServiceHost| || h[..|ServiceHost|] != ServiceHost {
        return Err(InvalidServiceURL);
      }
      var key := h[|"translate"|..];
      if key in cookies && cookies[key].expires > now {
        return Ok(cookies[key]);
      }
      r := Update(header, parseDate);
    }
  }
}
