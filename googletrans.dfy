/** Package googletrans: the translator that signs a request with the
    token of package tk, asks the service, and reads the fields it needs
    out of the answer by their position in its nested arrays
    (googletrans.go). The HTTP exchange is an input of the model, and the
    answer's body comes in already cut into the tokens of `text/scanner`. */
module GoogleTrans {
  import opened Common
  import GoInt
  import Tk
  import Tkk

  /** `TranslateParams`. */
  datatype TranslateParams = TranslateParams(src: string, dest: string, text: string)

  /** `Translated`: the parameters of the request and the translated text. */
  datatype Translated = Translated(params: TranslateParams, text: string)

  /** `Detected`, with the confidence as the token it is read from (the
      source parses it with `strconv.ParseFloat`, which this model leaves
      out; "" stands for the zero value). */
  datatype Detected = Detected(lang: string, confidence: string)

  /** `rawTranslated`, flattened. */
  datatype RawTranslated = RawTranslated(
    text: string,
    pronunciation: string,
    originalLanguage: string,
    confidence: string)

  /** `rawTranslated{}`. */
  const EmptyRaw: RawTranslated := RawTranslated("", "", "", "")

  // --------------------------------------------------- the coordinate vector

  /** The panic of `coord[len(coord)-1]` on an empty `coord`. */
  const IndexPanic: Error := RuntimePanic("index out of range")

  /** The panic of a slice expression whose bounds are out of range. */
  const SlicePanic: Error := RuntimePanic("slice bounds out of range")

  /** `coord[len(coord)-1]++`. */
  function Bump(coord: seq<int>): (r: seq<int>)
    requires coord != []
    ensures |r| == |coord| && r[..|r| - 1] == coord[..|coord| - 1]
    ensures r[|r| - 1] == coord[|coord| - 1] + 1
  {
    coord[|coord| - 1 := coord[|coord| - 1] + 1]
  }

  /** How one token moves the coordinate vector: `[` counts one more
      element at the current depth and opens a level, `]` closes one, `,`
      changes nothing and any other token counts one more element. */
  function StepCoord(coord: seq<int>, tok: string): Result<seq<int>>
  {
    if tok == "[" then
      if coord == [] then Err(IndexPanic) else Ok(Bump(coord) + [-1])
    else if tok == "]" then
      if coord == [] then Err(SlicePanic) else Ok(coord[..|coord| - 1])
    else if tok == "," then Ok(coord)
    else if coord == [] then Err(IndexPanic)
    else Ok(Bump(coord))
  }

  /** A token of the default case: neither a bracket nor a comma. */
  predicate IsValue(tok: string)
  {
    tok != "[" && tok != "]" && tok != ","
  }

  // ---------------------------------------------------- the five field rules

  /** `len(tokText) < 2`: Go's `len` counts bytes, so a token shorter than
      two bytes is the empty token or a single ASCII character. */
  predicate ShortToken(tok: string)
  {
    tok == [] || (|tok| == 1 && tok[0] as int < 0x80)
  }

  /** The characters strictly between the first and the last one; a
      single character of two bytes or more leaves nothing. */
  function Inner(tok: string): string
  {
    if |tok| < 2 then [] else tok[1..|tok| - 1]
  }

  /** `tokText[1:len(tokText)-1]`: the token without its first and last
      character (the quotes of a string), with no unescaping. */
  function Strip(tok: string): (r: Result<string>)
    ensures r.Err? <==> tok == [] || (|tok| == 1 && tok[0] as int < 0x80)
    ensures r.Err? ==> r.error == SlicePanic
    ensures r.Ok? && |tok| >= 2 ==> [tok[0]] + r.value + [tok[|tok| - 1]] == tok
  {
    if ShortToken(tok) then Err(SlicePanic) else Ok(Inner(tok))
  }

  /** The slice is taken on bytes: it panics exactly when the token has
      fewer than two bytes of UTF-8. */
  lemma StripPanicsBelowTwoBytes(tok: string)
    ensures Strip(tok).Err? <==> |Tk.Utf8(tok)| < 2
  {
    if tok != [] {
      var rest := tok[1..];
      assert Tk.Utf8(tok) == Tk.Utf8Char(tok[0]) + Tk.Utf8(rest);
      if |tok| == 1 {
        assert rest == [];
      } else {
        assert Tk.Utf8(rest) == Tk.Utf8Char(rest[0]) + Tk.Utf8(rest[1..]);
      }
    }
  }

  /** A token that starts and ends with an ASCII character (a quoted
      string does) loses exactly its first and last byte. */
  lemma StripQuoted(tok: string)
    requires |tok| >= 2 && tok[0] as int < 0x80 && tok[|tok| - 1] as int < 0x80
    ensures Strip(tok).Ok? && |Tk.Utf8(tok)| >= 2
    ensures Tk.Utf8(Strip(tok).value) == Tk.Utf8(tok)[1..|Tk.Utf8(tok)| - 1]
  {
    var first, mid, last := [tok[0]], tok[1..|tok| - 1], [tok[|tok| - 1]];
    assert tok == first + mid + last;
    Tk.Utf8Append(first + mid, last);
    Tk.Utf8Append(first, mid);
    assert Tk.Utf8(first) == [tok[0] as int] by {
      assert first[1..] == [];
    }
    assert Tk.Utf8(last) == [tok[|tok| - 1] as int] by {
      assert last[1..] == [];
    }
  }

  /** A lone character of two bytes, sliced from byte 1 to byte 1, leaves
      the empty string. */
  lemma StripTwoByteChar(tok: string)
    requires |tok| == 1 && 0x80 <= tok[0] as int < 0x800
    ensures |Tk.Utf8(tok)| == 2
    ensures Strip(tok) == Ok("")
  {
    assert Tk.Utf8(tok) == Tk.Utf8Char(tok[0]) + Tk.Utf8(tok[1..]);
    assert tok[1..] == [];
  }

  predicate IsTextSlot(c: seq<int>)
  {
    |c| == 4 && c[1] == 0 && c[3] == 0
  }

  /** The first pronunciation coordinate, (0, 0, 1, 2). */
  predicate IsPronSlotA(c: seq<int>)
  {
    |c| == 4 && c[0] == 0 && c[1] == 0 && c[2] == 1 && c[3] == 2
  }

  /** The second pronunciation coordinate, (0, 0, _, 2). */
  predicate IsPronSlot(c: seq<int>)
  {
    |c| == 4 && c[0] == 0 && c[1] == 0 && c[3] == 2
  }

  predicate IsLangSlot(c: seq<int>)
  {
    |c| == 2 && c[0] == 0 && c[1] == 2
  }

  predicate IsConfSlot(c: seq<int>)
  {
    |c| == 2 && c[0] == 0 && c[1] == 6
  }

  function TextRule(r: RawTranslated, c: seq<int>, tok: string): Result<RawTranslated>
  {
    if IsTextSlot(c) && tok != "null" then
      match Strip(tok)
      case Err(e) => Err(e)
      case Ok(s) => Ok(r.(text := r.text + s))
    else Ok(r)
  }

  function PronRule(r: RawTranslated, hit: bool, tok: string): Result<RawTranslated>
  {
    if hit && tok != "null" then
      match Strip(tok)
      case Err(e) => Err(e)
      case Ok(s) => Ok(r.(pronunciation := s))
    else Ok(r)
  }

  /** The language rule has no `null` guard. */
  function LangRule(r: RawTranslated, c: seq<int>, tok: string): Result<RawTranslated>
  {
    if IsLangSlot(c) then
      match Strip(tok)
      case Err(e) => Err(e)
      case Ok(s) => Ok(r.(originalLanguage := s))
    else Ok(r)
  }

  function ConfRule(r: RawTranslated, c: seq<int>, tok: string): RawTranslated
  {
    if IsConfSlot(c) then r.(confidence := tok) else r
  }

  /** The five `if`s of the default case, in the order of the source, for
      a value token whose coordinate (after its counter moved) is c. */
  function Record(r: RawTranslated, c: seq<int>, tok: string): Result<RawTranslated>
  {
    match TextRule(r, c, tok)
    case Err(e) => Err(e)
    case Ok(r1) =>
      match PronRule(r1, IsPronSlotA(c), tok)
      case Err(e) => Err(e)
      case Ok(r2) =>
        match PronRule(r2, IsPronSlot(c), tok)
        case Err(e) => Err(e)
        case Ok(r3) =>
          match LangRule(r3, c, tok)
          case Err(e) => Err(e)
          case Ok(r4) => Ok(ConfRule(r4, c, tok))
  }

  /** What a value token does, one coordinate shape at a time: the shapes
      exclude one another, so each token writes at most one field. */
  function RecordBySlot(r: RawTranslated, c: seq<int>, tok: string): Result<RawTranslated>
  {
    if IsTextSlot(c) then
      if tok == "null" then Ok(r)
      else if ShortToken(tok) then Err(SlicePanic)
      else Ok(r.(text := r.text + Inner(tok)))
    else if IsPronSlot(c) then
      if tok == "null" then Ok(r)
      else if ShortToken(tok) then Err(SlicePanic)
      else Ok(r.(pronunciation := Inner(tok)))
    else if IsLangSlot(c) then
      if ShortToken(tok) then Err(SlicePanic)
      else Ok(r.(originalLanguage := Inner(tok)))
    else if IsConfSlot(c) then Ok(r.(confidence := tok))
    else Ok(r)
  }

  /** The first pronunciation rule never changes the outcome (the second
      rule fires too, with the same value), the shapes are disjoint, and a
      token at any other coordinate leaves the result as it is. */
  lemma RecordMeans(r: RawTranslated, c: seq<int>, tok: string)
    ensures Record(r, c, tok) == RecordBySlot(r, c, tok)
  {
    if IsPronSlotA(c) {
      assert IsPronSlot(c) && !IsTextSlot(c) && !IsLangSlot(c) && !IsConfSlot(c);
    }
  }

  /** Without a `null` guard, a `null` at the language coordinate is read
      as the language "ul". */
  lemma NullLanguage(r: RawTranslated, c: seq<int>)
    requires IsLangSlot(c)
    ensures Record(r, c, "null") == Ok(r.(originalLanguage := "ul"))
  {
    RecordMeans(r, c, "null");
    assert "null"[1..3] == "ul";
  }

  // ------------------------------------------------------------- the scan

  /** The state of the scan: the coordinate vector and the result so far. */
  datatype Scan = Scan(coord: seq<int>, result: RawTranslated)

  function Step(st: Scan, tok: string): Result<Scan>
  {
    match StepCoord(st.coord, tok)
    case Err(e) => Err(e)
    case Ok(c) =>
      if !IsValue(tok) then Ok(Scan(c, st.result))
      else
        match Record(st.result, c, tok)
        case Err(e) => Err(e)
        case Ok(r) => Ok(Scan(c, r))
  }

  /** The state after the tokens toks, from `coord = []int{-1}` and the
      empty result; the first panic ends the scan. */
  function ScanAll(toks: seq<string>): Result<Scan>
  {
    if toks == [] then Ok(Scan([-1], EmptyRaw))
    else
      match ScanAll(toks[..|toks| - 1])
      case Err(e) => Err(e)
      case Ok(st) => Step(st, toks[|toks| - 1])
  }

  /** What `parseRawTranslated` returns for the tokens of the body. */
  function ParseRaw(toks: seq<string>): Result<RawTranslated>
  {
    match ScanAll(toks)
    case Err(e) => Err(e)
    case Ok(st) => Ok(st.result)
  }

  /** A panic after the first i tokens is the outcome of the whole scan. */
  lemma {:induction false} PanicEndsScan(toks: seq<string>, i: nat)
    requires i <= |toks| && ScanAll(toks[..i]).Err?
    ensures ScanAll(toks) == ScanAll(toks[..i])
    decreases |toks| - i
  {
    if i < |toks| {
      assert toks[..i + 1][..i] == toks[..i];
      PanicEndsScan(toks, i + 1);
    } else {
      assert toks[..i] == toks;
    }
  }

  /** `parseRawTranslated`: `coord` is pushed and popped and the fields of
      `result` are set as the tokens go by. */
  method ParseRawTranslated(tokens: seq<string>) returns (res: Result<RawTranslated>)
    ensures res == ParseRaw(tokens)
  {
    var coord: seq<int> := [-1];
    var result := EmptyRaw;
    var i := 0;
    while i < |tokens|
      invariant i <= |tokens|
      invariant ScanAll(tokens[..i]) == Ok(Scan(coord, result))
    {
      var tokText := tokens[i];
      assert tokens[..i + 1][..i] == tokens[..i];
      if tokText == "[" || tokText == "]" || tokText == "," {
        if tokText != "," && coord == [] {
          PanicEndsScan(tokens, i + 1);
          return if tokText == "[" then Err(IndexPanic) else Err(SlicePanic);
        }
        if tokText == "[" {
          coord := coord[|coord| - 1 := coord[|coord| - 1] + 1];
          coord := coord + [-1];
        } else if tokText == "]" {
          coord := coord[..|coord| - 1];
        }
      } else {
        if coord == [] {
          PanicEndsScan(tokens, i + 1);
          return Err(IndexPanic);
        }
        coord := coord[|coord| - 1 := coord[|coord| - 1] + 1];
        var next := Record(result, coord, tokText);
        RecordMeans(result, coord, tokText);
        if |coord| == 4 && coord[1] == 0 && coord[3] == 0 {
          if tokText != "null" {
            if ShortToken(tokText) {
              PanicEndsScan(tokens, i + 1);
              return Err(SlicePanic);
            }
            result := result.(text := result.text + Inner(tokText));
          }
        }
        if |coord| == 4 && coord[0] == 0 && coord[1] == 0 && coord[2] == 1 && coord[3] == 2 {
          if tokText != "null" {
            if ShortToken(tokText) {
              PanicEndsScan(tokens, i + 1);
              return Err(SlicePanic);
            }
            result := result.(pronunciation := Inner(tokText));
          }
        }
        if |coord| == 4 && coord[0] == 0 && coord[1] == 0 && coord[3] == 2 {
          if tokText != "null" {
            if ShortToken(tokText) {
              PanicEndsScan(tokens, i + 1);
              return Err(SlicePanic);
            }
            result := result.(pronunciation := Inner(tokText));
          }
        }
        if |coord| == 2 && coord[0] == 0 && coord[1] == 2 {
          if ShortToken(tokText) {
            PanicEndsScan(tokens, i + 1);
            return Err(SlicePanic);
          }
          result := result.(originalLanguage := Inner(tokText));
        }
        if |coord| == 2 && coord[0] == 0 && coord[1] == 6 {
          result := result.(confidence := tokText);
        }
        assert next == Ok(result);
      }
      i := i + 1;
    }
    assert tokens[..i] == tokens;
    return Ok(result);
  }

  // ------------------------------------------------ what the scan amounts to

  /** The number of tokens equal to t. */
  function Count(toks: seq<string>, t: string): (n: nat)
    ensures n <= |toks|
  {
    if toks == [] then 0
    else Count(toks[..|toks| - 1], t) + (if toks[|toks| - 1] == t then 1 else 0)
  }

  /** The depth of the coordinate vector is one more than the number of
      `[` that are not yet closed. */
  lemma {:induction false} DepthCount(toks: seq<string>)
    ensures ScanAll(toks).Ok? ==> |ScanAll(toks).value.coord| == 1 + Count(toks, "[") - Count(toks, "]")
  {
    if toks != [] {
      DepthCount(toks[..|toks| - 1]);
    }
  }

  /** A `]` that closes the outermost level empties the vector, and the
      next token other than a comma panics. */
  lemma UnmatchedClosePanics(toks: seq<string>, k: nat)
    requires k < |toks| && toks[k] != ","
    requires Count(toks[..k], "]") == Count(toks[..k], "[") + 1
    ensures ParseRaw(toks).Err?
  {
    DepthCount(toks[..k]);
    assert toks[..k + 1][..k] == toks[..k];
    PanicEndsScan(toks, k + 1);
  }

  /** The parser has no error of its own: every failure is a panic. */
  lemma {:induction false} OnlyPanics(toks: seq<string>)
    ensures ScanAll(toks).Err? ==> ScanAll(toks).error.RuntimePanic?
  {
    if toks != [] {
      OnlyPanics(toks[..|toks| - 1]);
      var st := ScanAll(toks[..|toks| - 1]);
      if st.Ok? {
        var tok := toks[|toks| - 1];
        var c := StepCoord(st.value.coord, tok);
        if c.Ok? && IsValue(tok) {
          RecordMeans(st.value.result, c.value, tok);
        }
      }
    }
  }

  /** A value token can only append to the text. */
  lemma RecordExtendsText(r: RawTranslated, c: seq<int>, tok: string)
    requires Record(r, c, tok).Ok?
    ensures r.text <= Record(r, c, tok).value.text
  {
    RecordMeans(r, c, tok);
  }

  /** The translated text only grows: the text read from a prefix of the
      tokens is a prefix of the text read from all of them. */
  lemma {:induction false} TextGrows(toks: seq<string>, i: nat)
    requires i <= |toks| && ScanAll(toks).Ok?
    ensures ScanAll(toks[..i]).Ok?
    ensures ScanAll(toks[..i]).value.result.text <= ScanAll(toks).value.result.text
    decreases |toks| - i
  {
    if i == |toks| {
      assert toks[..i] == toks;
    } else {
      var init := toks[..|toks| - 1];
      assert toks[..i] == init[..i];
      var st := ScanAll(init);
      var tok := toks[|toks| - 1];
      if st.Ok? {
        TextGrows(init, i);
        var c := StepCoord(st.value.coord, tok);
        if IsValue(tok) {
          RecordExtendsText(st.value.result, c.value, tok);
        }
      }
    }
  }

  // ------------------------------------------------------------ the request

  /** The keys of the query of `buildTransURL`. */
  datatype Param = Client | Source | Target | Host | InEncoding | OutEncoding | Otf | Ssel | Tsel | Kc | Text | Token | Dt
  {
    /** The key as it is written in the URL. */
    function Name(): string
    {
      match this
      case Client => "client"
      case Source => "sl"
      case Target => "tl"
      case Host => "hl"
      case InEncoding => "ie"
      case OutEncoding => "oe"
      case Otf => "otf"
      case Ssel => "ssel"
      case Tsel => "tsel"
      case Kc => "kc"
      case Text => "q"
      case Token => "tk"
      case Dt => "dt"
    }
  }

  /** `url.Values`: the values of each key, in the order they were added. */
  type Values = map<Param, seq<string>>

  /** `values.Add(k, v)`. */
  function Add(values: Values, k: Param, v: string): (r: Values)
    ensures r.Keys == values.Keys + {k}
    ensures r[k] == (if k in values then values[k] else []) + [v]
    ensures forall j :: j in values && j != k ==> r[j] == values[j]
  {
    values[k := (if k in values then values[k] else []) + [v]]
  }

  /** The `dt` values, in the order they are added. */
  const Dts: seq<string> := ["at", "bd", "ex", "ld", "md", "qca", "rw", "rm", "ss", "t"]

  /** `TranslateParams` with an empty `Src` replaced by "auto". */
  function WithDefaultSource(p: TranslateParams): (q: TranslateParams)
    ensures q.src != "" && q.dest == p.dest && q.text == p.text
    ensures p.src != "" ==> q == p
  {
    if p.src == "" then p.(src := "auto") else p
  }

  /** The keys of the map literal of `buildTransURL`: all but "dt". */
  const FieldKeys: set<Param> := {Client, Source, Target, Host, InEncoding, OutEncoding, Otf, Ssel, Tsel, Kc, Text, Token}

  /** The map literal of `buildTransURL`, as the value of each key. */
  function Field(p: TranslateParams, tk: string, k: Param): string
  {
    match k
    case Client => "webapp"
    case Source => WithDefaultSource(p).src
    case Target => p.dest
    case Host => p.dest
    case InEncoding => "UTF-8"
    case OutEncoding => "UTF-8"
    case Otf => "1"
    case Ssel => "0"
    case Tsel => "0"
    case Kc => "7"
    case Text => p.text
    case Token => tk
    case Dt => ""
  }

  /** The query of `buildTransURL`: each field once, then the ten `dt`. */
  function Query(p: TranslateParams, tk: string): Values
  {
    map k | k in FieldKeys + {Dt} :: if k == Dt then Dts else [Field(p, tk, k)]
  }

  /** The query has every key, each once except "dt", which holds the ten
      `dt` values in order. */
  lemma QueryKeys(p: TranslateParams, tk: string)
    ensures forall k :: k in Query(p, tk)
    ensures forall k :: k != Dt ==> |Query(p, tk)[k]| == 1
    ensures Query(p, tk)[Dt] == Dts && |Query(p, tk)[Dt]| == 10
  {
    forall k
      ensures k in FieldKeys + {Dt}
    {
      match k
      case Client =>
      case Source =>
      case Target =>
      case Host =>
      case InEncoding =>
      case OutEncoding =>
      case Otf =>
      case Ssel =>
      case Tsel =>
      case Kc =>
      case Text =>
      case Token =>
      case Dt =>
    }
  }

  /** The query carries the source language (or "auto"), the destination
      language twice, the text and its token, and the fixed values. */
  lemma QueryValues(p: TranslateParams, tk: string)
    ensures Query(p, tk)[Source] == [if p.src == "" then "auto" else p.src]
    ensures Query(p, tk)[Target] == Query(p, tk)[Host] == [p.dest]
    ensures Query(p, tk)[Text] == [p.text] && Query(p, tk)[Token] == [tk]
    ensures Query(p, tk)[Client] == ["webapp"] && Query(p, tk)[InEncoding] == Query(p, tk)[OutEncoding] == ["UTF-8"]
    ensures Query(p, tk)[Otf] == ["1"] && Query(p, tk)[Ssel] == Query(p, tk)[Tsel] == ["0"] && Query(p, tk)[Kc] == ["7"]
  {
  }

  /** The first `values.Add` loop of `buildTransURL`. It ranges over a
      Go map, whose order is unspecified: the loop takes the keys in any
      order, and the values come out the same. */
  method AddFields(params: TranslateParams, tk: string) returns (values: Values)
    ensures values.Keys == FieldKeys
    ensures forall j :: j in values ==> values[j] == [Field(params, tk, j)]
  {
    values := map[];
    var keys := FieldKeys;
    while keys != {}
      invariant keys <= FieldKeys
      invariant values.Keys == FieldKeys - keys
      invariant forall j :: j in values ==> values[j] == [Field(params, tk, j)]
      decreases keys
    {
      var k :| k in keys;
      values := Add(values, k, Field(params, tk, k));
      keys := keys - {k};
    }
  }

  /** The two `values.Add` loops of `buildTransURL`: the fields, then the
      ten `dt` values. */
  method BuildQuery(params: TranslateParams, tk: string) returns (values: Values)
    ensures values == Query(params, tk)
  {
    values := AddFields(params, tk);
    var dts := ["at", "bd", "ex", "ld", "md", "qca", "rw", "rm", "ss", "t"];
    ghost var base := values;
    assert Dt !in base;
    for i := 0 to |dts|
      invariant values == if i == 0 then base else base[Dt := dts[..i]]
    {
      assert dts[..i + 1] == dts[..i] + [dts[i]];
      values := Add(values, Dt, dts[i]);
    }
    assert dts[..|dts|] == Dts;
    assert values.Keys == Query(params, tk).Keys;
  }

  // ------------------------------------------------------ the translator

  /** The status and the scanned body of the translation request. */
  datatype Response = Response(status: int, tokens: seq<string>)

  /** The GET of `do`, given the service URL and the query: `None` when
      the client fails, or when reading the body of a 200 response fails
      (`do` reads the body only after the status check). */
  type Exchange = (string, Values) -> Option<Response>

  /** The token `buildTransURL` puts in the query: its error is dropped,
      so a secret `tk.Get` rejects gives the empty token. */
  function TokenFor(text: string, secret: string): (tk: string)
    ensures Tk.IsDecimalFloat(secret) ==> tk == Tk.Token(text, secret).value
    ensures !Tk.IsDecimalFloat(secret) ==> tk == ""
  {
    match Tk.Token(text, secret)
    case Ok(t) => t
    case Err(_) => ""
  }

  /** `buildTransURL` once the cache has answered: the URL of the
      service and the query, signed with the token of the text. */
  function TransRequest(serviceURL: string, p: TranslateParams, secret: Result<string>): Result<(string, Values)>
  {
    match secret
    case Err(e) => Err(e)
    case Ok(s) => Ok((serviceURL + "/translate_a/single", Query(p, TokenFor(p.text, s))))
  }

  /** `do` once the cache has answered with the secret (or an error). */
  function Exchanged(serviceURL: string, p: TranslateParams, secret: Result<string>, exchange: Exchange): Result<RawTranslated>
  {
    match TransRequest(serviceURL, p, secret)
    case Err(e) => Err(e)
    case Ok(req) =>
      match exchange(req.0, req.1)
      case None => Err(Transport)
      case Some(resp) =>
        if resp.status != 200 then Err(RequestStatus(resp.status)) else ParseRaw(resp.tokens)
  }

  /** `Translate` once the cache has answered. */
  function TranslateWith(serviceURL: string, p: TranslateParams, secret: Result<string>, exchange: Exchange): Result<Translated>
  {
    var q := WithDefaultSource(p);
    match Exchanged(serviceURL, q, secret, exchange)
    case Err(e) => Err(e)
    case Ok(raw) => Ok(Translated(q, raw.text))
  }

  /** `Detect` once the cache has answered. */
  function DetectWith(serviceURL: string, text: string, secret: Result<string>, exchange: Exchange): Result<Detected>
  {
    match Exchanged(serviceURL, TranslateParams("auto", "en", text), secret, exchange)
    case Err(e) => Err(e)
    case Ok(raw) => Ok(Detected(raw.originalLanguage, raw.confidence))
  }

  /** An empty source language is the same request as "auto", and a
      translation echoes its parameters with the source filled in. */
  lemma TranslateDefaults(serviceURL: string, p: TranslateParams, secret: Result<string>, exchange: Exchange)
    ensures p.src == "" ==> TranslateWith(serviceURL, p, secret, exchange) == TranslateWith(serviceURL, p.(src := "auto"), secret, exchange)
    ensures TranslateWith(serviceURL, p, secret, exchange).Ok? ==>
      TranslateWith(serviceURL, p, secret, exchange).value.params == (if p.src == "" then p.(src := "auto") else p)
  {
  }

  /** A failed cache lookup fails before any request; any status other
      than 200 fails with that status, whatever the body. */
  lemma ExchangeErrors(serviceURL: string, p: TranslateParams, secret: Result<string>, exchange: Exchange, status: int, tokens: seq<string>)
    ensures secret.Err? ==> Exchanged(serviceURL, p, secret, exchange) == Err(secret.error)
    ensures secret.Ok? ==> TransRequest(serviceURL, p, secret).Ok?
    ensures secret.Ok? && status != 200
      && exchange(TransRequest(serviceURL, p, secret).value.0, TransRequest(serviceURL, p, secret).value.1) == Some(Response(status, tokens))
      ==> Exchanged(serviceURL, p, secret, exchange) == Err(RequestStatus(status))
  {
  }

  /** `Detect(text)` sends the request of translating text from "auto"
      into "en", and reads the language and the confidence of its answer. */
  lemma DetectIsAutoToEnglish(serviceURL: string, text: string, secret: Result<string>, exchange: Exchange)
    ensures DetectWith(serviceURL, text, secret, exchange).Ok?
        <==> TranslateWith(serviceURL, TranslateParams("", "en", text), secret, exchange).Ok?
    ensures DetectWith(serviceURL, text, secret, exchange).Err?
        ==> DetectWith(serviceURL, text, secret, exchange).error == TranslateWith(serviceURL, TranslateParams("", "en", text), secret, exchange).error
  {
  }

  /** `Translator`: the service URL and its cache of the secret. */
  class Translator {
    var serviceURL: string
    var tkkCache: Tkk.Cache

    ghost predicate Valid()
      reads this, tkkCache
    {
      tkkCache.Valid()
    }

    /** `New(serviceURL)`. */
    constructor (serviceURL: string)
      ensures Valid() && fresh(tkkCache)
      ensures this.serviceURL == serviceURL && tkkCache.v == "0"
      ensures tkkCache.u == if serviceURL == "" then Tkk.DefaultServiceURL else serviceURL
    {
      this.serviceURL := serviceURL;
      tkkCache := new Tkk.Cache(serviceURL);
    }

    /** `buildTransURL`: the secret from the cache (at the instant unix,
        with the page the cache would fetch), the token and the query. */
    method BuildTransURL(params: TranslateParams, unix: GoInt.Int64, page: Tkk.Fetch) returns (r: Result<(string, Values)>)
      requires Valid()
      modifies tkkCache
      ensures Valid()
      ensures tkkCache.u == old(tkkCache.u)
      ensures tkkCache.v == Tkk.Lookup(old(tkkCache.v), unix, page).1
      ensures r == TransRequest(serviceURL, params, Tkk.Lookup(old(tkkCache.v), unix, page).0)
    {
      var secret := tkkCache.Get(unix, page);
      if secret.Err? {
        return Err(secret.error);
      }
      var tk := Tk.Get(params.text, secret.value);
      var token := if tk.Ok? then tk.value else "";
      var query := BuildQuery(params, token);
      return Ok((serviceURL + "/translate_a/single", query));
    }

    /** `do`: the request, one GET, its status and the parse of its body. */
    method Do(params: TranslateParams, unix: GoInt.Int64, page: Tkk.Fetch, exchange: Exchange) returns (r: Result<RawTranslated>)
      requires Valid()
      modifies tkkCache
      ensures Valid()
      ensures tkkCache.u == old(tkkCache.u)
      ensures tkkCache.v == Tkk.Lookup(old(tkkCache.v), unix, page).1
      ensures r == Exchanged(serviceURL, params, Tkk.Lookup(old(tkkCache.v), unix, page).0, exchange)
    {
      var req := BuildTransURL(params, unix, page);
      if req.Err? {
        return Err(req.error);
      }
      var resp := exchange(req.value.0, req.value.1);
      if resp.None? {
        return Err(Transport);
      }
      if resp.value.status != 200 {
        return Err(RequestStatus(resp.value.status));
      }
      r := ParseRawTranslated(resp.value.tokens);
    }

    /** `Translate`. */
    method Translate(params: TranslateParams, unix: GoInt.Int64, page: Tkk.Fetch, exchange: Exchange) returns (r: Result<Translated>)
      requires Valid()
      modifies tkkCache
      ensures Valid()
      ensures tkkCache.u == old(tkkCache.u)
      ensures tkkCache.v == Tkk.Lookup(old(tkkCache.v), unix, page).1
      ensures r == TranslateWith(serviceURL, params, Tkk.Lookup(old(tkkCache.v), unix, page).0, exchange)
    {
      var p := params;
      if p.src == "" {
        p := p.(src := "auto");
      }
      var transData := Do(p, unix, page, exchange);
      if transData.Err? {
        return Err(transData.error);
      }
      return Ok(Translated(p, transData.value.text));
    }

    /** `Detect`. */
    method Detect(text: string, unix: GoInt.Int64, page: Tkk.Fetch, exchange: Exchange) returns (r: Result<Detected>)
      requires Valid()
      modifies tkkCache
      ensures Valid()
      ensures tkkCache.u == old(tkkCache.u)
      ensures tkkCache.v == Tkk.Lookup(old(tkkCache.v), unix, page).1
      ensures r == DetectWith(serviceURL, text, Tkk.Lookup(old(tkkCache.v), unix, page).0, exchange)
    {
      var transData := Do(TranslateParams("auto", "en", text), unix, page, exchange);
      if transData.Err? {
        return Err(transData.error);
      }
      return Ok(Detected(transData.value.originalLanguage, transData.value.confidence));
    }
  }
}
