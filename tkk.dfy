/** Package tkk: the cache of the rotating secret "tkk" that the request
    token is computed from (tkk/tkk.go). The cache holds the secret `v` and
    the address `u` it is scraped from; a secret whose integer part is the
    current hour is served as it is, any other one is refreshed from the
    page at `u`. The HTTP round trip is an input of the model: the status
    and body the GET would have produced. */
module Tkk {
  import opened Common
  import opened GoInt
  import Tk

  const DefaultServiceURL: string := "https://translate.google.cn"

  /** The outcome of the GET that `update` issues: either the request
      failed (a bad URL or a transport error), or a status code and the
      body, where `None` stands for an error while reading the body. */
  datatype Fetch =
    | RequestFailed
    | Fetched(status: int, body: Option<string>)

  // ------------------------------------------------------------- the secret

  /** `<digits>.<digits>`, the shape of every secret the pattern captures. */
  predicate IsTkkValue(v: string)
  {
    var dot := IndexOf(v, '.');
    0 < dot && dot + 1 < |v| && AllDigits(v[..dot]) && AllDigits(v[dot + 1..])
  }

  /** The integer part of a secret as `math.Floor(strconv.ParseFloat(v))`
      gives it, for unsigned decimals without an exponent (digits with at
      most one dot); `None` stands for a failed parse. */
  function Floor(v: string): (f: Option<nat>)
    ensures f.Some? <==> Tk.IsMantissa(v)
    ensures f.Some? ==> var dot := IndexOf(v, '.');
      AllDigits(v[..dot]) && f.value == DigitsValue(v[..dot])
  {
    if !Tk.IsMantissa(v) then None
    else
      var dot := IndexOf(v, '.');
      assert AllDigits(v[..dot]) by {
        if dot == |v| {
          assert v[..dot] == v;
        }
      }
      Some(DigitsValue(v[..dot]))
  }

  /** `time.Now().Unix() * 1000 / 3600000` in int64 arithmetic: the
      product wraps around, the quotient is truncated toward zero.
      For times since 1970 short of the int64 overflow of the product,
      the bucket is the number of whole hours. */
  function HourBucket(unix: Int64): (h: Int64)
    ensures 0 <= unix && unix * 1000 < TwoTo63 ==> h == unix / 3600
  {
    var h := Quot(Wrap64(unix * 1000), 3600000);
    if 0 <= unix && unix * 1000 < TwoTo63 then
      WholeHours(unix, h);
      h
    else h
  }

  lemma WholeHours(unix: Int64, h: Int64)
    requires 0 <= unix && unix * 1000 < TwoTo63
    requires h == Quot(Wrap64(unix * 1000), 3600000)
    ensures h == unix / 3600
  {
    var q, r := unix / 3600, unix % 3600;
    assert unix * 1000 == 3600000 * q + 1000 * r;
    DivUnique(unix * 1000, 3600000, q, 1000 * r);
    DivUnique(unix * 1000, 3600000, h, unix * 1000 - h * 3600000);
  }

  /** `isvalid`: the integer part of the secret is the current hour. A
      secret it accepts is one `tk.Get` accepts. */
  function IsValidAt(v: string, unix: Int64): (b: bool)
    ensures b ==> Tk.IsDecimalFloat(v)
  {
    if Floor(v) == Some(HourBucket(unix) as int) then
      Tk.MantissaIsDecimalFloat(v);
      true
    else false
  }

  /** Two times in the same hour see the same secrets as valid. */
  lemma SameHourSameVerdict(v: string, t1: Int64, t2: Int64)
    requires HourBucket(t1) == HourBucket(t2)
    ensures IsValidAt(v, t1) <==> IsValidAt(v, t2)
  {
  }

  /** The sentinel "0" is valid only in the hour the bucket is 0. */
  lemma SentinelValidity(unix: Int64)
    ensures IsValidAt("0", unix) <==> HourBucket(unix) == 0
  {
    assert IndexOf("0", '.') == 1;
    assert "0"[..1] == "0";
  }

  /** A secret d1.d2 is valid exactly in the hour d1. */
  lemma TkkValidity(d1: string, d2: string, unix: Int64)
    requires d1 != [] && d2 != [] && AllDigits(d1) && AllDigits(d2)
    ensures IsValidAt(d1 + "." + d2, unix) <==> DigitsValue(d1) == HourBucket(unix)
  {
    var v := d1 + "." + d2;
    DotAfterDigits(d1, d2);
    assert v[..|d1|] == d1 && v[|d1| + 1..] == d2;
  }

  lemma DotAfterDigits(d1: string, d2: string)
    requires AllDigits(d1) && AllDigits(d2)
    ensures IndexOf(d1 + "." + d2, '.') == |d1|
  {
    var v := d1 + "." + d2;
    assert v[|d1|] == '.';
    forall j | 0 <= j < |d1|
      ensures v[j] != '.'
    {
      assert v[j] == d1[j] && IsDigit(d1[j]);
    }
  }

  // ---------------------------------------------- the pattern tkk:'(\d+\.\d+)'

  const Prefix: string := "tkk:'"

  /** The number of ASCII digits of s from index i on. */
  function DigitRun(s: string, i: nat): (n: nat)
    requires i <= |s|
    ensures i + n <= |s|
    ensures forall k :: i <= k < i + n ==> IsDigit(s[k])
    ensures i + n < |s| ==> !IsDigit(s[i + n])
    decreases |s| - i
  {
    if i < |s| && IsDigit(s[i]) then 1 + DigitRun(s, i + 1) else 0
  }

  /** What `(\d+\.\d+)'` captures at index i: two digit runs around a
      dot, followed by a quote. The runs cannot be shortened (the
      character after each must be '.' or '\'', which is no digit), so
      the capture at i, if any, is unique. */
  function CaptureAt(data: string, i: nat): (m: Option<string>)
    requires i <= |data|
  {
    var n1 := DigitRun(data, i);
    if n1 > 0 && i + n1 < |data| && data[i + n1] == '.' then
      var j := i + n1 + 1;
      var n2 := DigitRun(data, j);
      if n2 > 0 && j + n2 < |data| && data[j + n2] == '\'' then Some(data[i..j + n2]) else None
    else None
  }

  /** The group the pattern captures when a match starts at p. */
  function MatchAt(data: string, p: nat): (m: Option<string>)
    requires p <= |data|
  {
    if p + 5 <= |data| && data[p..p + 5] == Prefix then CaptureAt(data, p + 5) else None
  }

  /** The leftmost match at or after p. */
  function FindFrom(data: string, p: nat): Option<string>
    requires p <= |data|
    decreases |data| - p
  {
    if MatchAt(data, p).Some? then MatchAt(data, p)
    else if p == |data| then None
    else FindFrom(data, p + 1)
  }

  /** `tkkRegexp.FindStringSubmatch(data)[1]`, `None` when the pattern does
      not match. */
  function FindTkk(data: string): Option<string>
  {
    FindFrom(data, 0)
  }

  lemma DigitsSlice(s: string, i: nat, n: nat)
    requires i + n <= |s|
    requires forall k :: i <= k < i + n ==> IsDigit(s[k])
    ensures AllDigits(s[i..i + n])
  {
    var t := s[i..i + n];
    forall k | 0 <= k < n
      ensures IsDigit(t[k])
    {
      assert t[k] == s[i + k];
    }
  }

  /** A capture at i is a value <digits>.<digits> followed by a quote. */
  lemma CaptureMeans(data: string, i: nat, v: string)
    requires i <= |data|
    ensures CaptureAt(data, i) == Some(v)
        <==> IsTkkValue(v) && i + |v| < |data| && data[i..i + |v|] == v && data[i + |v|] == '\''
  {
    if CaptureAt(data, i) == Some(v) {
      CaptureGivesValue(data, i);
    }
    if IsTkkValue(v) && i + |v| < |data| && data[i..i + |v|] == v && data[i + |v|] == '\'' {
      ValueGivesCapture(data, i, v);
    }
  }

  lemma CaptureGivesValue(data: string, i: nat)
    requires i <= |data| && CaptureAt(data, i).Some?
    ensures var v := CaptureAt(data, i).value;
      IsTkkValue(v) && i + |v| < |data| && data[i..i + |v|] == v && data[i + |v|] == '\''
  {
    var n1 := DigitRun(data, i);
    var j := i + n1 + 1;
    var n2 := DigitRun(data, j);
    DigitsSlice(data, i, n1);
    DigitsSlice(data, j, n2);
    assert data[i..j + n2] == data[i..j - 1] + "." + data[j..j + n2];
    DigitsDotDigits(data[i..j - 1], data[j..j + n2]);
  }

  /** `<digits>.<digits>` has the pattern's shape. */
  lemma DigitsDotDigits(d1: string, d2: string)
    requires d1 != [] && d2 != [] && AllDigits(d1) && AllDigits(d2)
    ensures IsTkkValue(d1 + "." + d2)
  {
    var v := d1 + "." + d2;
    DotAfterDigits(d1, d2);
    assert v[..|d1|] == d1 && v[|d1| + 1..] == d2;
  }

  lemma ValueGivesCapture(data: string, i: nat, v: string)
    requires IsTkkValue(v) && i + |v| < |data| && data[i..i + |v|] == v && data[i + |v|] == '\''
    ensures CaptureAt(data, i) == Some(v)
  {
    var dot := IndexOf(v, '.');
    forall k | 0 <= k < |v|
      ensures data[i + k] == v[k]
    {
      assert data[i..i + |v|][k] == data[i + k];
    }
    RunLength(data, i, v[..dot], dot);
    var j := i + dot + 1;
    RunLength(data, j, v[dot + 1..], |v| - dot - 1);
  }

  /** A match at p is exactly the text "tkk:'" + v + "'" with v of the
      shape <digits>.<digits>, read from p on. */
  lemma MatchAtMeans(data: string, p: nat, v: string)
    requires p <= |data|
    ensures MatchAt(data, p) == Some(v)
        <==> IsTkkValue(v) && p + |v| + 6 <= |data| && data[p..p + |v| + 6] == Prefix + v + "'"
  {
    if p + |v| + 6 <= |data| {
      var w := data[p..p + |v| + 6];
      assert w == data[p..p + 5] + data[p + 5..p + 5 + |v|] + [data[p + 5 + |v|]];
      if w == Prefix + v + "'" {
        assert w[..5] == Prefix && w[5..5 + |v|] == v;
      }
    }
    if p + 5 <= |data| {
      CaptureMeans(data, p + 5, v);
    }
  }

  /** A run of n digits followed by a non-digit has length n. */
  lemma {:induction false} RunLength(s: string, i: nat, d: string, n: nat)
    requires i + n < |s| && |d| == n && AllDigits(d)
    requires forall k :: 0 <= k < n ==> s[i + k] == d[k]
    requires !IsDigit(s[i + n])
    ensures DigitRun(s, i) == n
    decreases n
  {
    if n > 0 {
      assert s[i] == d[0] && IsDigit(d[0]);
      RunLength(s, i + 1, d[1..], n - 1);
    }
  }

  /** FindFrom returns the first match at or after p: q is its index, or
      |data| + 1 when there is none. */
  lemma {:induction false} FindFromLeftmost(data: string, p: nat) returns (q: nat)
    requires p <= |data|
    ensures p <= q <= |data| + 1
    ensures forall k :: p <= k < q && k <= |data| ==> MatchAt(data, k).None?
    ensures q <= |data| ==> MatchAt(data, q).Some? && FindFrom(data, p) == MatchAt(data, q)
    ensures q == |data| + 1 ==> FindFrom(data, p).None?
    decreases |data| - p
  {
    if MatchAt(data, p).Some? {
      q := p;
    } else if p == |data| {
      q := p + 1;
    } else {
      q := FindFromLeftmost(data, p + 1);
    }
  }

  /** The regular expression finds the leftmost match, and what it
      captures is of the shape <digits>.<digits>. */
  lemma FindTkkLeftmost(data: string)
    ensures FindTkk(data).None? <==> forall q :: 0 <= q <= |data| ==> MatchAt(data, q).None?
    ensures FindTkk(data).Some? ==> IsTkkValue(FindTkk(data).value)
    ensures FindTkk(data).Some? ==>
      exists q :: 0 <= q <= |data| && MatchAt(data, q) == FindTkk(data)
        && forall k :: 0 <= k < q ==> MatchAt(data, k).None?
  {
    var q := FindFromLeftmost(data, 0);
    if q <= |data| {
      CaptureGivesValue(data, q + 5);
    }
  }

  // ------------------------------------------------------------ transitions

  /** `update`: the result it returns and the secret it leaves behind. A
      failed request, a status of 400 or more, a failed read or a body
      without the pattern return an error and keep the secret; a match
      becomes the secret and is returned. */
  function Refresh(v: string, resp: Fetch): (rv: (Result<string>, string))
    ensures rv.0.Err? ==> rv.1 == v
    ensures rv.0.Ok? ==> rv.1 == rv.0.value && IsTkkValue(rv.1)
  {
    match resp
    case RequestFailed => (Err(Transport), v)
    case Fetched(status, body) =>
      if status >= 400 then (Err(TkkStatus(status)), v)
      else if body.None? then (Err(Transport), v)
      else
        var m := FindTkk(body.value);
        FindTkkLeftmost(body.value);
        if m.None? then (Err(TkkNotFound), v) else (Ok(m.value), m.value)
  }

  /** `Get`: the stored secret while it is valid, a refresh otherwise. */
  function Lookup(v: string, unix: Int64, resp: Fetch): (Result<string>, string)
  {
    if IsValidAt(v, unix) then (Ok(v), v) else Refresh(v, resp)
  }

  /** Each failure path and its error. */
  lemma RefreshErrors(v: string, status: int, body: Option<string>)
    ensures Refresh(v, RequestFailed) == (Err(Transport), v)
    ensures status >= 400 ==> Refresh(v, Fetched(status, body)) == (Err(TkkStatus(status)), v)
    ensures status < 400 && body.None? ==> Refresh(v, Fetched(status, body)) == (Err(Transport), v)
    ensures status < 400 && body.Some? && FindTkk(body.value).None?
      ==> Refresh(v, Fetched(status, body)) == (Err(TkkNotFound), v)
  {
  }

  /** A successful refresh stores what the pattern found in the body. */
  lemma RefreshStoresMatch(v: string, status: int, body: string, w: string)
    requires status < 400
    ensures Refresh(v, Fetched(status, Some(body))) == (Ok(w), w) <==> FindTkk(body) == Some(w)
  {
  }

  /** The cache keeps the secret in one of the two shapes. */
  predicate IsSecret(v: string)
  {
    v == "0" || IsTkkValue(v)
  }

  /** Every secret the cache can hold is accepted by `tk.Get`. */
  lemma SecretAcceptedByToken(v: string)
    requires IsSecret(v)
    ensures Tk.IsDecimalFloat(v)
  {
    if v == "0" {
      Tk.ZeroIsDecimalFloat();
    } else {
      var dot := IndexOf(v, '.');
      assert v == v[..dot] + "." + v[dot + 1..];
      Tk.DigitsAreDecimalFloat(v[..dot], v[dot + 1..]);
    }
  }

  /** Once a refresh has stored a secret of the current hour, every later
      lookup in that hour serves it without fetching, whatever the page
      would answer. */
  lemma SameHourNoFetch(v: string, t1: Int64, t2: Int64, resp1: Fetch, resp2: Fetch)
    requires HourBucket(t1) == HourBucket(t2)
    requires Lookup(v, t1, resp1).0.Ok?
    requires IsValidAt(Lookup(v, t1, resp1).1, t1)
    ensures var w := Lookup(v, t1, resp1).1; Lookup(w, t2, resp2) == (Ok(w), w)
  {
    SameHourSameVerdict(Lookup(v, t1, resp1).1, t1, t2);
  }

  // ------------------------------------------------------------- the object

  /** `tkkCache`: the secret `v` and the page address `u`. */
  class Cache {
    var v: string
    var u: string

    ghost predicate Valid()
      reads this
    {
      IsSecret(v)
    }

    /** `NewCache`: an empty address means the default one; the secret
        starts as the sentinel "0". */
    constructor (serviceURL: string)
      ensures Valid()
      ensures v == "0"
      ensures u == if serviceURL == "" then DefaultServiceURL else serviceURL
    {
      v := "0";
      u := if serviceURL == "" then DefaultServiceURL else serviceURL;
    }

    /** `Set` changes the address and nothing else. */
    method Set(googleTransURL: string)
      requires Valid()
      modifies this
      ensures Valid()
      ensures u == googleTransURL && v == old(v)
    {
      u := googleTransURL;
    }

    /** `isvalid`, on the clock reading `unix` (seconds since 1970). */
    function IsValid(unix: Int64): (b: bool)
      reads this
      ensures b <==> Floor(v) == Some(HourBucket(unix) as int)
      ensures b ==> Tk.IsDecimalFloat(v)
    {
      IsValidAt(v, unix)
    }

    /** `update`, with the GET to `u` answered by `resp`. */
    method Update(resp: Fetch) returns (r: Result<string>)
      requires Valid()
      modifies this
      ensures Valid()
      ensures u == old(u)
      ensures (r, v) == Refresh(old(v), resp)
    {
      match resp
      case RequestFailed =>
        r := Err(Transport);
      case Fetched(status, body) =>
        if status >= 400 {
          r := Err(TkkStatus(status));
          return;
        }
        if body.None? {
          r := Err(Transport);
          return;
        }
        var m := FindTkk(body.value);
        if m.None? {
          r := Err(TkkNotFound);
          return;
        }
        FindTkkLeftmost(body.value);
        v := m.value;
        r := Ok(v);
    }

    /** `Get` at time `unix`; `resp` is what the page would answer if it
        were fetched. */
    method Get(unix: Int64, resp: Fetch) returns (r: Result<string>)
      requires Valid()
      modifies this
      ensures Valid()
      ensures u == old(u)
      ensures (r, v) == Lookup(old(v), unix, resp)
      ensures old(IsValidAt(v, unix)) ==> r == Ok(old(v)) && v == old(v)
    {
      if IsValid(unix) {
        return Ok(v);
      }
      r := Update(resp);
    }
  }
}
