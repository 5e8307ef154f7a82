# googletrans in Dafny

A model of the core of the Go package `github.com/mind1949/googletrans`, a
client of the Google Translate web endpoint, together with the properties
proved about it. The model covers four parts:

- **tk** (`tk.dfy`, `goint.dfy`, `tk_vector.dfy`) is the request-token
  signer `tk.Get(s, tkk)`. It expands the text's code points into UTF-16
  units and re-encodes them into bytes. It folds each byte into an
  accumulator with the little shift/add/xor program interpreter `xr`, and
  formats `"<n>.<n xor A>"`. Go's 64-bit `int` is written out in
  `GoInt`: wrap-around, shifts, the truncating `%` and `/`, and
  exclusive or on two's-complement bits. `strconv.Atoi`, with its error
  dropped, and `strconv.Itoa` are there too. `tk_vector.dfy` proves the
  package's own test vector.
- **tkk** (`tkk.dfy`) is the cache of the rotating secret `tkk`. The
  class `Tkk.Cache` has the fields `v` (the secret) and `u` (the page it
  is scraped from). A secret is valid when its integer part equals the
  current hour count. A refresh either stores the first
  `tkk:'<digits>.<digits>'` of the page, found by a hand-written
  leftmost scanner, or fails and keeps `v`.
- **transcookie** (`transcookie.dfy`) has three pieces:
  - the three-index scanner `parseCookieStr` of a `Set-Cookie` header;
  - the host check and key of `get`;
  - the class `TransCookie.CookieCache` with its `cookies` map, updated in
    place by `update`.
- **googletrans** (`googletrans.dfy`) has four pieces:
  - the positional parser `parseRawTranslated` over the scanner's tokens,
    with its coordinate vector;
  - the query of `buildTransURL`;
  - `do`, `Translate` and `Detect`;
  - the class `GoogleTrans.Translator`, which owns a `Tkk.Cache`.

Go code that changes state step by step is written as Dafny methods with
loops. Each method is proved equal to a specification function, and the
properties are proved about those functions. The state-changing methods
are `Tk.Get`, `Tkk.Cache.Update`, `TransCookie.ParseCookieStr` and
`GoogleTrans.ParseRawTranslated`, among others. Go panics are explicit
outcomes `Err(RuntimePanic(..))`. Three such panics are modelled:

- the slice `cookieStr[m+1:r]` when a `;` comes before the `=`;
- `tokText[1:len(tokText)-1]` on a token of fewer than two bytes;
- `coord` emptied by an unmatched `]`.

The network, the clock, `time.Parse` and `url.Parse` are parameters:
- the GET of `tkkCache.update` is the `Tkk.Fetch` it would produce;
- the GET of `transCookiesCache.update` is the `Set-Cookie` header;
- the GET of `do` is an `Exchange` function from URL and query to status
  and tokens;
- `time.Now()` is an instant passed in.

Some behaviour of the parser and of `do` follows from the code:

- The language rule (googletrans.go:245-247) has no `null` guard, so a
  `null` in the language slot gives the language `"ul"`
  (`GoogleTrans.NullLanguage`).
- The confidence (googletrans.go:248-250) is read only from a bare token
  at coordinate (0, 6), whatever that token is. When element 6 of the
  response is an array, no token sits at (0, 6) and the confidence keeps
  its zero value.
- `do` (googletrans.go:134-167) sends one GET. It has no switch to POST,
  no retry on any status, no shared in-flight refresh and no choice of
  host. Any status other than 200 is an error.
- The first pronunciation rule (googletrans.go:235-239) is subsumed by
  the second (googletrans.go:240-244): the second always fires with the
  same value (`GoogleTrans.RecordMeans`).
- The slice `tokText[1:len(tokText)-1]` (googletrans.go:232, 237, 242,
  246) works on bytes. It panics only on a token of fewer than two
  bytes, so a lone non-ASCII character does not panic
  (`GoogleTrans.StripPanicsBelowTwoBytes`).

## Model

| member | source | states |
|---|---|---|
| GoInt.Wrap64 | tk/tk.go:102 | the int64 result agrees with the exact value modulo 2^64 and is the value itself when that fits |
| GoInt.Shl | tk/tk.go:102 | `a << n` is congruent to a·2^n modulo 2^64 and equals it when the product fits |
| GoInt.Shr | tk/tk.go:100 | `a >> n` is the floor of a / 2^n (r·2^n <= a < (r+1)·2^n), non-negative and at most a for a non-negative a |
| GoInt.Rem | tk/tk.go:100 | Go's `%` by a positive modulus: `a == (a / m) * m + r` with Go's quotient, r in [0, m) for a non-negative a and in (-m, 0] for a negative one |
| GoInt.Quot | tkk/tkk.go:80-82 | Go's `/` by a positive divisor truncates toward zero: the remainder `a - q*m` is below m in size and has the sign of a |
| GoInt.Xor | tk/tk.go:108 | `^` on int64 bits: two non-negative operands give a non-negative result, two operands below 2^32 a result below 2^32 |
| GoInt.S2Int | tk/tk.go:114-117 | `Atoi` with the error dropped: a numeral with an optional '+' or '-' gives its signed value, saturated to 2^63 - 1 above and to -2^63 below; an optional sign and a leading run of digits worth 2^64 or more saturate the same way whatever follows, because `ParseUint` reports the overflow before it reaches a non-digit; any other text gives 0; only a '-' gives a negative result |
| GoInt.OverflowBeforeSyntax | tk/tk.go:114-117 | a sign (or none), then digits worth 2^64 or more, then a non-digit: `Atoi` still saturates, to -2^63 after '-' and to 2^63 - 1 otherwise, so "99999999999999999999e5" gives 2^63 - 1 and not 0 |
| GoInt.Itoa | tk/tk.go:86 | `strconv.Itoa`: the digits of n for n >= 0, and '-' followed by the digits of -n otherwise |
| GoInt.ItoaRoundTrip | tk/tk.go:86 | `Atoi(Itoa(n)) == n` for every int64 n |
| GoInt.NatStringValue | tk/tk.go:86 | the decimal numeral of n reads back as n |
| Tk.CharUnits | tk/tk.go:23-31 | a code point below 0x10000 gives one unit equal to it; any other gives a high unit in [0xD800, 0xDBFF] and a low unit in [0xDC00, 0xDFFF] that recombine to it |
| Tk.UnitsAppend | tk/tk.go:23-31 | the expansion of a text is the expansions of its characters, in order |
| Tk.Mask64512Range | tk/tk.go:42 | `l & 64512 == 55296` exactly for high surrogates and `== 56320` exactly for low surrogates |
| Tk.Combine | tk/tk.go:44 | a surrogate pair recombines to a code point in [0x10000, 0x10FFFF] |
| Tk.TwoBytesTable | tk/tk.go:40-52 | a unit in [128, 2048) becomes `0xC0 + l/64, 0x80 + l%64` |
| Tk.ThreeBytesTable | tk/tk.go:48-52 | a unit from 2048 on without a following low surrogate becomes the three-byte UTF-8 form |
| Tk.FourBytesTable | tk/tk.go:43-52 | a surrogate pair becomes the four-byte UTF-8 form of its code point |
| Tk.EncodeAt | tk/tk.go:34-54 | the loop body at index g: one byte below 128, two below 2048, four for a surrogate pair (consuming two units), three otherwise |
| Tk.EncodeBytes | tk/tk.go:33-54 | every value appended to `e` is a byte in [0, 255] |
| Tk.EncodeIsUtf8 | tk/tk.go:22-54 | the bytes of a text are its UTF-8 encoding (section 3 of RFC 3629) |
| Tk.SurrogatePair | tk/tk.go:42-44 | the units of an astral character pass the surrogate test and recombine to the character |
| Tk.AsciiPassesThrough | tk/tk.go:36-37 | an ASCII text is encoded as its own character codes |
| Tk.Split | tk/tk.go:60 | `strings.Split(s, ".")` gives at least one part and no part holds a dot |
| Tk.SplitJoin | tk/tk.go:60 | joining the parts with dots gives back the text |
| Tk.SplitAt | tk/tk.go:60 | `d1.d2` with dot-free halves splits into exactly `[d1, d2]` |
| Tk.SplitNoDot | tk/tk.go:60 | a dot-free text is one part |
| Tk.TkkTermsOf | tk/tk.go:60-65 | for `d1.d2` the terms are the values of d1 and d2; for a secret without a dot both terms are 0, so A is 0 and nothing is XORed in |
| Tk.DigitsAreDecimalFloat | tk/tk.go:17 | every `<digits>.<digits>` secret passes the `ParseFloat` check |
| Tk.ZeroIsDecimalFloat | tk/tk.go:17 | the initial secret "0" passes the `ParseFloat` check |
| Tk.ShiftAmount | tk/tk.go:91-97 | a letter maps to its code minus 87 ('a' to 10, 'f' to 15), a digit to its value |
| Tk.XrGroup | tk/tk.go:99-109 | a group whose first character is '+' leaves the accumulator in [0, 2^32) |
| Tk.XorShiftGroupBound | tk/tk.go:99-108 | an '^' group with a right shift keeps a 32-bit accumulator in 32 bits |
| Tk.Xr | tk/tk.go:89-112 | the `xr` loop computes the group-by-group interpretation of the program |
| Tk.ProgramsAscii | tk/tk.go:70-72 | both programs are ASCII, so byte indexing is character indexing |
| Tk.FoldProgramGroups | tk/tk.go:70 | "+-a^+6" is add of a left shift by 10, then xor of a right shift by 6 |
| Tk.FinalProgramGroups | tk/tk.go:72 | "+-3^+b+-f" is three groups: add `<<3`, xor `>>>11`, add `<<15` |
| Tk.FoldProgramRange | tk/tk.go:70 | after the per-byte program the accumulator is in [0, 2^32) |
| Tk.FinalProgramRange | tk/tk.go:72 | after the final program the accumulator is in [0, 2^32) |
| Tk.FoldByte | tk/tk.go:68-71 | each byte step ends in [0, 2^32) |
| Tk.FoldRange | tk/tk.go:67-71 | the fold over a non-empty byte sequence ends in [0, 2^32), whatever A is |
| Tk.Unsign | tk/tk.go:80-82 | a negative accumulator becomes `(x & 0x7FFFFFFF) + 2^31`, in [2^31, 2^32) and congruent modulo 2^31; a non-negative one is kept |
| Tk.Reduce | tk/tk.go:74-84 | the first component is in [0, 1000000) |
| Tk.Token | tk/tk.go:16-20 | the result is an error exactly when the secret does not parse as a float, and that error is `ErrInvalidTkk`, whatever the text |
| Tk.TokenShape | tk/tk.go:80-86 | an accepted secret gives `"<n>.<n xor A>"` for some n with 0 <= n < 1000000, which the lemma returns |
| Tk.ExpandUnits | tk/tk.go:22-31 | the expansion loop builds the UTF-16 units of the text |
| Tk.EncodeUnits | tk/tk.go:33-54 | the byte loop, which advances `g` inside its body, builds the encoding of the units |
| Tk.SplitTkk | tk/tk.go:56-65 | the split loop yields the two terms of the secret |
| Tk.FoldBytes | tk/tk.go:67-71 | the accumulator loop computes the fold |
| Tk.Mix | tk/tk.go:74-84 | after the final program (which `Get` runs): xor with B, sign fix-up and `% 1000000`, a value in [0, 1000000) |
| Tk.Get | tk/tk.go:16-87 | `Get` returns the token function's result |
| TkVector.FoldValue | tk/tk.go:67-71 | the fold of the bytes of "hello world" from 443916 is 854685492 |
| TkVector.TextBytesValue | tk/tk.go:22-54 | "hello world" encodes to its twelve UTF-8 bytes |
| TkVector.FinishValue | tk/tk.go:72-86 | the final steps on that accumulator format "68957.510801" |
| TkVector.GetExample | tk/tk_test.go:7-16 | `Get("hello world", "443916.547221231")` is `"68957.510801"` with no error |
| Tkk.Floor | tkk/tkk.go:83-88 | a result exactly for an unsigned decimal (digits with at most one dot), and that result is the value of the digits before the dot |
| Tkk.HourBucket | tkk/tkk.go:80-82 | for a non-negative time that does not overflow, `Unix()*1000/3600000` is the number of whole hours |
| Tkk.IsValidAt | tkk/tkk.go:79-92 | `isvalid`: a secret it accepts is one `tk.Get` accepts |
| Tkk.Cache.IsValid | tkk/tkk.go:79-92 | `isvalid` on the cache's secret: the integer part equals the hour bucket, and the secret is then accepted by `tk.Get` |
| Tkk.SameHourSameVerdict | tkk/tkk.go:79-92 | validity depends on the time only through its hour bucket |
| Tkk.SentinelValidity | tkk/tkk.go:79-92 | the initial "0" is valid only in hour 0 |
| Tkk.TkkValidity | tkk/tkk.go:79-92 | `d1.d2` is valid exactly when d1's value equals the hour bucket |
| Tkk.DigitRun | tkk/tkk.go:34 | the length of the maximal run of digits from an index |
| Tkk.CaptureMeans | tkk/tkk.go:34 | the capture at i is v exactly when v is `<digits>.<digits>` and is followed by a quote |
| Tkk.CaptureGivesValue | tkk/tkk.go:34 | a capture is a `<digits>.<digits>` value in the text, followed by a quote |
| Tkk.ValueGivesCapture | tkk/tkk.go:34 | such a value in the text is captured |
| Tkk.MatchAtMeans | tkk/tkk.go:34 | a match at p is exactly `tkk:'<v>'` at p with v `<digits>.<digits>` |
| Tkk.FindFromLeftmost | tkk/tkk.go:119-123 | the scan from p returns the match at the first index that has one, or none |
| Tkk.FindTkkLeftmost | tkk/tkk.go:119-123 | there is no match exactly when no index matches, and a found value is the leftmost match and has the pattern's shape |
| Tkk.Refresh | tkk/tkk.go:94-125 | on error `v` is unchanged; on success `v` is the returned value and has the pattern's shape |
| Tkk.RefreshErrors | tkk/tkk.go:98-121 | a failed request, a status of 400 or more, a failed body read, or a page without a match each give their error and keep `v` |
| Tkk.RefreshStoresMatch | tkk/tkk.go:119-124 | below 400, the refresh stores and returns w exactly when w is the first match |
| Tkk.SecretAcceptedByToken | tkk/tkk.go:123-124 | every value the cache can hold ("0" or `<digits>.<digits>`) is accepted by `tk.Get` |
| Tkk.SameHourNoFetch | tkk/tkk.go:63-69 | after a successful get that leaves a valid secret, a get in the same hour returns it without using the fetch |
| Tkk.Cache.constructor | tkk/tkk.go:44-49 | a new cache holds "0" and the given URL, or the default URL when it is empty |
| Tkk.Cache.Set | tkk/tkk.go:58-60 | `Set` changes `u` only |
| Tkk.Cache.Update | tkk/tkk.go:94-125 | the new secret and the result are those of the refresh transition; `u` is kept |
| Tkk.Cache.Get | tkk/tkk.go:63-69 | the lookup transition; a valid secret is returned without refreshing |
| TransCookie.IndexFrom | transcookie/transcookie.go:100-110 | the first index from i holding the character, or the length |
| TransCookie.SkipSeparators | transcookie/transcookie.go:129-131 | the first index from i that holds neither a space nor ';' |
| TransCookie.ParseFromNext | transcookie/transcookie.go:106-131 | one loop round: the key and value slices, the error of the switch, or the parse going on after the separators |
| TransCookie.ParseCookieStr | transcookie/transcookie.go:94-137 | the three-index loop returns the parse of the header |
| TransCookie.ApplyFields | transcookie/transcookie.go:113-127 | `expires` sets the expiry or fails with the date error, `path` and `domain` set their field verbatim, any other key sets name and value, and `HttpOnly` is untouched |
| TransCookie.ParseFromKeepsHttpOnly | transcookie/transcookie.go:99-136 | no segment changes `HttpOnly` |
| TransCookie.HttpOnlyAlwaysSet | transcookie/transcookie.go:97 | every parsed cookie has `HttpOnly` set |
| TransCookie.StopsWithoutEquals | transcookie/transcookie.go:100-105 | a remainder without '=' ends the parse with the fields set so far |
| TransCookie.PanicsOnSemicolonFirst | transcookie/transcookie.go:108-111 | a ';' before the first '=' makes `cookieStr[m+1:r]` panic |
| TransCookie.SegmentStep | transcookie/transcookie.go:100-131 | a segment `k=v;` gives exactly key k and value v (v may hold '='), then the parse goes on |
| TransCookie.NidSegment | transcookie/transcookie_test.go:6-7 | "NID=<v>;" gives the name NID and the value v whole, as for "204=Au7..." |
| TransCookie.SegmentAdvances | transcookie/transcookie.go:108-133 | every round moves `r` forward, so the loop ends |
| TransCookie.CacheKeyMeans | transcookie/transcookie.go:52-58 | the host is refused exactly when it is not longer than "translate.google" or does not start with it; otherwise the key is the host without "translate" |
| TransCookie.RefreshStores | transcookie/transcookie.go:67-85 | a failed refresh keeps the map; a successful one stores the cookie under its domain and leaves every other entry |
| TransCookie.LookupHit | transcookie/transcookie.go:57-64 | the stored cookie is returned exactly when present and expiring after now; otherwise the cache is refreshed |
| TransCookie.LookupRejectsHost | transcookie/transcookie.go:53-55 | a bad host gives `ErrInvalidServiceURL` and no change |
| TransCookie.CookieCache.constructor | transcookie/transcookie.go:40-45 | a new cache is empty |
| TransCookie.CookieCache.Update | transcookie/transcookie.go:67-85 | the result and the new map are those of the refresh |
| TransCookie.CookieCache.Get | transcookie/transcookie.go:47-65 | the result and the new map are those of the lookup |
| GoogleTrans.Bump | googletrans.go:221 | `coord[len(coord)-1]++` adds one to the last counter and keeps the others |
| GoogleTrans.Strip | googletrans.go:232 | the slice panics exactly on the empty token and a lone ASCII character; otherwise the first and last character are cut off |
| GoogleTrans.StripPanicsBelowTwoBytes | googletrans.go:232 | the slice panics exactly when the token has fewer than two bytes of UTF-8 |
| GoogleTrans.StripQuoted | googletrans.go:232 | a token that starts and ends with an ASCII character loses exactly its first and last byte |
| GoogleTrans.StripTwoByteChar | googletrans.go:232 | a lone two-byte character gives the empty string, without a panic |
| GoogleTrans.RecordMeans | googletrans.go:227-250 | the five rules equal one rule per coordinate shape: the shapes are disjoint, the first pronunciation rule never matters, and a token elsewhere changes nothing |
| GoogleTrans.NullLanguage | googletrans.go:245-247 | `null` at the language coordinate gives the language "ul" |
| GoogleTrans.PanicEndsScan | googletrans.go:217-252 | a panic after some tokens is the outcome of the whole parse |
| GoogleTrans.ParseRawTranslated | googletrans.go:211-255 | the scan loop, pushing and popping `coord`, returns the parse of the tokens |
| GoogleTrans.DepthCount | googletrans.go:219-228 | after any tokens, `len(coord)` is 1 plus the number of `[` minus the number of `]` |
| GoogleTrans.UnmatchedClosePanics | googletrans.go:223-228 | a `]` that closes the outermost level makes the next non-comma token panic |
| GoogleTrans.OnlyPanics | googletrans.go:211-255 | the parser never returns an error of its own; every failure is a run-time panic |
| GoogleTrans.TextGrows | googletrans.go:230-234 | the translated text only grows: the text read from a prefix of the tokens is a prefix of the final text |
| GoogleTrans.Add | googletrans.go:199-203 | `values.Add` appends to the values of one key and leaves the others |
| GoogleTrans.WithDefaultSource | googletrans.go:80-82 | an empty `Src` becomes "auto", a non-empty one is kept, and the rest is untouched |
| GoogleTrans.QueryKeys | googletrans.go:184-204 | the query has all thirteen keys, each with one value except `dt`, which has the ten values at, bd, ex, ld, md, qca, rw, rm, ss, t in order |
| GoogleTrans.QueryValues | googletrans.go:181-198 | `sl` is Src or "auto", `tl` and `hl` are Dest, `q` is the text, `tk` the token, and client/ie/oe/otf/ssel/tsel/kc are webapp, UTF-8, UTF-8, 1, 0, 0, 7 |
| GoogleTrans.AddFields | googletrans.go:184-200 | the range over the map literal adds every field once, in any order |
| GoogleTrans.BuildQuery | googletrans.go:184-204 | the two `Add` loops build the query |
| GoogleTrans.TokenFor | googletrans.go:174 | the token of the text, or "" when `tk.Get` rejects the secret |
| GoogleTrans.TranslateDefaults | googletrans.go:79-92 | an empty `Src` is the same request as "auto", and the result echoes the parameters with `Src` filled in |
| GoogleTrans.ExchangeErrors | googletrans.go:134-152 | a secret error fails before the request, and a status other than 200 fails with that status whatever the body |
| GoogleTrans.DetectIsAutoToEnglish | googletrans.go:119-131 | `Detect(text)` succeeds or fails exactly as translating text from auto into en does |
| GoogleTrans.Translator.constructor | googletrans.go:71-76 | a new translator keeps the URL, and its cache starts at "0" with the URL or the default |
| GoogleTrans.Translator.BuildTransURL | googletrans.go:169-209 | the cache transition (its `u` kept), then the request URL and the query signed with the text's token |
| GoogleTrans.Translator.Do | googletrans.go:134-167 | the cache transition (its `u` kept), then the exchange: transport error, non-200 status, or the parse of the body |
| GoogleTrans.Translator.Translate | googletrans.go:79-93 | the cache transition (its `u` kept), then the translation of the parameters with the source defaulted |
| GoogleTrans.Translator.Detect | googletrans.go:119-132 | the cache transition (its `u` kept), then the language and confidence of the auto-to-en exchange |

## Left out

- HTTP I/O is replaced by its outcome, passed in as a parameter:
  - the GETs of `do`, `tkkCache.update` and `transCookiesCache.update`;
  - reading the bodies.
- `time.Sleep` in `transCookiesCache.update` is left out. It has no effect
  on the state.
- `time.Now()` is a parameter.
- `BulkTranslate` is left out: its point is the goroutine, the channels
  and context cancellation.
- The `sync.RWMutex` locking is left out, as are the package-level
  default instances (`tkk.Get`/`tkk.Set`, `transcookie.Get`/`Update`).
  The model is sequential.
- `text/scanner` tokenization is not modelled. The parser takes the token
  texts as a sequence.
- `url.Parse`, `u.Hostname()`, `Values.Encode` and `u.String()` are not
  modelled:
  - the host name is an `Option` input;
  - the query is the `url.Values` map handed to the exchange;
  - the query keys are an enumeration with their URL names.
- `time.Parse` with the cookie date layout is a function parameter.
- `http.Cookie` keeps only the fields the parser sets.
- `strconv.ParseFloat` of the confidence is left out. `Detected`
  carries the raw token, and "" stands for 0.
- Tk.Token: the float check accepts optionally signed decimals with an
  optional exponent. It does not accept `ParseFloat`'s other spellings:
  - hexadecimal floats;
  - "Inf" and "NaN";
  - underscores between digits (Go's `underscoreOK`), so that "1_0.5",
    which Go accepts with A = 0 and B = 5, is `Err(InvalidTkk)` here.

  It also does not reject out-of-range values such as "1e400". Every
  secret the cache can hold is a plain decimal, which both agree on.
- Tkk.Floor: `math.Floor(ParseFloat(v))` is taken for unsigned decimals
  without an exponent. Any other text counts as unparsable, including
  digits separated by underscores. A stored
  secret is always "0" or `<digits>.<digits>`. The model takes the exact
  integer part of the digits. Go first rounds the decimal to the nearest
  float64 and then floors that. The two differ when the rounding crosses
  an integer: "479999.99999999999999" gives 480000 in Go and 479999
  here, and "9007199254740993.5", above 2^53, gives 9007199254740994 in
  Go. Binary floating point is not modelled.
- Tkk.TkkValidity: "valid exactly when d1's value equals the hour
  bucket" holds of the model's exact `Floor`. It is not a promise about
  Go for secrets whose float64 rounding crosses an integer (see
  `Tkk.Floor` above). For "479999.99999999999999" in hour 480000, Go
  finds the secret valid and the model refreshes it. `Tkk.IsValidAt` and
  `Tkk.Cache.IsValid` rest on the same `Floor`. Only their "accepted by
  `tk.Get`" half holds for Go's verdict as well.
- Tk.EncodeIsUtf8: the byte encoding is proved equal to UTF-8 for Dafny
  `char`s, which are Unicode scalar values. The bytes→runes decoding of a
  Go string with invalid UTF-8, which yields U+FFFD, is not modelled.
- GoogleTrans.Strip: texts are sequences of characters, not of bytes.
  A token whose first or last character is not ASCII loses that whole
  character here, where Go cuts only one byte of it. A lone character
  of three or four bytes gives "" here, where Go keeps its inner bytes.
  The panic condition and quoted strings match Go byte for byte
  (`GoogleTrans.StripPanicsBelowTwoBytes`, `GoogleTrans.StripQuoted`).
- The panics carry a short message, not Go's exact runtime text.
- The full example header of transcookie_test.go is not proved as one
  piece. Its first segment is (`TransCookie.NidSegment`), and so is the
  general segment rule (`TransCookie.SegmentStep`).
- The test files that need the network are not modelled:
  - googletrans_test.go;
  - googletrans_bench_test.go;
  - tkk/tkk_test.go;
  - the logging in transcookie/transcookie_test.go.
