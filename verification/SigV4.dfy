/** Presigned URLs: GeneratePresignedURL (internal/auth/presign.go) against ParseSigV4, BuildCanonicalRequest,
    BuildStringToSign and VerifySignature (internal/auth/parser.go, internal/auth/canonical.go). */
module SigV4 {
  import opened Basics
  import opened Orders
  import opened UriEncoding
  import opened CanonicalUri
  import opened CanonicalQuery

  /** SHA-256 and HMAC-SHA-256, as functions between byte strings. */
  datatype Crypto = Crypto(sha256: string -> string, hmac: (string, string) -> string)

  datatype PresignOptions = PresignOptions(host: string, bucket: string, key: string, accessKey: string, secret: string,
                                           expires: int, region: string, verb: string)

  /** The signing time: eight digits and six digits. */
  datatype Stamp = Stamp(date: string, time: string)

  datatype Request = Request(verb: string, target: string, host: string, headers: map<string, seq<string>>)

  datatype ParsedSig = ParsedSig(accessKey: string, date: string, region: string, service: string,
                                 signedHeaders: seq<string>, signature: string)

  datatype Verdict = Accepted(accessKey: string) | BadRequest | NotPresigned | MalformedSignature | UnknownAccessKey | SignatureMismatch

  // ---------------------------------------------------------------- text

  function UpperChar(c: char): char {
    if 'a' <= c <= 'z' then c - 32 as char else c
  }

  function LowerChar(c: char): char {
    if 'A' <= c <= 'Z' then c + 32 as char else c
  }

  function Upper(s: string): string {
    if s == "" then "" else [UpperChar(s[0])] + Upper(s[1..])
  }

  function Lower(s: string): string {
    if s == "" then "" else [LowerChar(s[0])] + Lower(s[1..])
  }

  predicate White(c: char) {
    c == ' ' || 9 <= c as int <= 13
  }

  function Trim(s: string): string {
    TrimRight(TrimLeft(s, White), White)
  }

  /** Runs of spaces become one space. */
  function CollapseSpaces(s: string, afterSpace: bool): string {
    if s == "" then ""
    else if s[0] == ' ' then (if afterSpace then "" else " ") + CollapseSpaces(s[1..], true)
    else [s[0]] + CollapseSpaces(s[1..], false)
  }

  function Decimal(n: nat): string {
    if n < 10 then ["0123456789"[n]] else Decimal(n / 10) + ["0123456789"[n % 10]]
  }

  function LowerHexDigit(x: int): char
    requires 0 <= x < 16
  {
    "0123456789abcdef"[x]
  }

  function HexByte(x: int): string
    requires 0 <= x < 256
  {
    [LowerHexDigit(x / 16), LowerHexDigit(x % 16)]
  }

  function HexEncode(b: string): string {
    if b == "" then "" else HexByte(b[0] as int % 256) + HexEncode(b[1..])
  }

  function HexDecode(s: string): Option<string> {
    if s == "" then Some("")
    else if |s| < 2 || HexValue(s[0]).None? || HexValue(s[1]).None? then None
    else
      var rest := HexDecode(s[2..]);
      if rest.None? then None else Some([Byte(HexValue(s[0]).value * 16 + HexValue(s[1]).value)] + rest.value)
  }

  // ---------------------------------------------------------------- what is signed

  function CanonicalRequest(verb: string, uri: string, query: string, headers: string, signed: string, payload: string): string {
    Join([verb, uri, query, headers, signed, payload], "\n")
  }

  function Scope(date: string, region: string, service: string): string {
    date + "/" + region + "/" + service + "/aws4_request"
  }

  function StringToSign(c: Crypto, timestamp: string, scope: string, request: string): string {
    Join(["AWS4-HMAC-SHA256", timestamp, scope, HexEncode(c.sha256(request))], "\n")
  }

  function SigningKey(c: Crypto, secret: string, date: string, region: string, service: string): string {
    var kDate := c.hmac("AWS4" + secret, date);
    var kRegion := c.hmac(kDate, region);
    var kService := c.hmac(kRegion, service);
    c.hmac(kService, "aws4_request")
  }

  function Sign(c: Crypto, secret: string, date: string, region: string, service: string, text: string): string {
    HexEncode(c.hmac(SigningKey(c, secret, date, region, service), text))
  }

  // ---------------------------------------------------------------- the signer

  function Timestamp(t: Stamp): string {
    t.date + "T" + t.time + "Z"
  }

  function RegionOf(o: PresignOptions): string {
    if o.region == "" then "us-east-1" else o.region
  }

  function VerbOf(o: PresignOptions): string {
    if o.verb == "" then "GET" else Upper(o.verb)
  }

  function Credential(o: PresignOptions, t: Stamp): string {
    o.accessKey + "/" + t.date + "/" + RegionOf(o) + "/s3/aws4_request"
  }

  function Params(o: PresignOptions, t: Stamp): seq<Pair> {
    [ Pair("X-Amz-Algorithm", "AWS4-HMAC-SHA256"),
      Pair("X-Amz-Credential", Credential(o, t)),
      Pair("X-Amz-Date", Timestamp(t)),
      Pair("X-Amz-Expires", Decimal(if o.expires <= 0 then 3600 else o.expires)),
      Pair("X-Amz-SignedHeaders", "host") ]
  }

  predicate Digits(s: string) {
    forall i | 0 <= i < |s| :: '0' <= s[i] <= '9'
  }

  predicate IsStamp(t: Stamp) {
    |t.date| == 8 && |t.time| == 6 && Digits(t.date) && Digits(t.time)
  }

  /** The parameters in the order the signer's map is ranged over. */
  ghost predicate Arranged(order: seq<Pair>, o: PresignOptions, t: Stamp) {
    DistinctKeys(order) && Elems(order) == Elems(Params(o, t))
  }

  predicate OptionBytes(o: PresignOptions) {
    && IsBytes(o.bucket) && IsBytes(o.key)
    && IsBytes(o.accessKey) && ValidUtf8(o.accessKey) && IsBytes(o.region) && ValidUtf8(o.region)
  }

  /** No slash where the credential scope is cut up. */
  predicate ScopeSafe(o: PresignOptions) {
    '/' !in o.accessKey && '/' !in o.region
  }

  function SignedRequest(o: PresignOptions, order: seq<Pair>): string
    requires OptionBytes(o) && forall i | 0 <= i < |order| :: PairBytes(order[i])
  {
    CanonicalRequest(VerbOf(o), SignedPath(o.bucket, o.key), SignedOf(order), "host:" + o.host + "\n", "host", "UNSIGNED-PAYLOAD")
  }

  function SignedString(c: Crypto, o: PresignOptions, t: Stamp, order: seq<Pair>): string
    requires OptionBytes(o) && forall i | 0 <= i < |order| :: PairBytes(order[i])
  {
    StringToSign(c, Timestamp(t), Scope(t.date, RegionOf(o), "s3"), SignedRequest(o, order))
  }

  function SignatureFor(c: Crypto, o: PresignOptions, t: Stamp, order: seq<Pair>): string
    requires OptionBytes(o) && forall i | 0 <= i < |order| :: PairBytes(order[i])
  {
    Sign(c, o.secret, t.date, RegionOf(o), "s3", SignedString(c, o, t, order))
  }

  /** What follows the base URL. */
  function PresignedTarget(c: Crypto, o: PresignOptions, t: Stamp, order: seq<Pair>): string
    requires OptionBytes(o) && forall i | 0 <= i < |order| :: PairBytes(order[i])
  {
    SignedPath(o.bucket, o.key) + "?" + RawQuery(order, SignatureFor(c, o, t, order))
  }

  function RawQuery(order: seq<Pair>, sig: string): string
    requires forall i | 0 <= i < |order| :: PairBytes(order[i])
  {
    SignedOf(order) + "&" + SIGNATURE_KEY + "=" + sig
  }

  method GeneratePresignedURL(c: Crypto, o: PresignOptions, t: Stamp, order: seq<Pair>) returns (target: string)
    requires OptionBytes(o) && forall i | 0 <= i < |order| :: PairBytes(order[i])
    ensures target == PresignedTarget(c, o, t, order)
  {
    var region := if o.region == "" then "us-east-1" else o.region;
    var verb := Upper(o.verb);
    if verb == "" {
      verb := "GET";
    }
    var uri := SignPath(o.bucket, o.key);
    var query := SignQuery(order);
    var request := CanonicalRequest(verb, uri, query, "host:" + o.host + "\n", "host", "UNSIGNED-PAYLOAD");
    var text := StringToSign(c, Timestamp(t), Scope(t.date, region, "s3"), request);
    var signature := Sign(c, o.secret, t.date, region, "s3", text);
    target := uri + "?" + (query + "&" + SIGNATURE_KEY + "=" + signature);
  }

  // ---------------------------------------------------------------- the verifier

  /** Path and raw query of a request; none when the path does not unescape. */
  function ParseTarget(target: string): Option<(string, string)> {
    var i := Find(target, '?');
    var path := Unescape(target[..i], false);
    if path.None? then None else Some((path.value, if i < |target| then target[i + 1..] else ""))
  }

  function ParseCredential(credential: string, signedHeaders: seq<string>, signature: string): Option<ParsedSig> {
    var segments := Split(credential, '/');
    if |segments| < 5 then None
    else Some(ParsedSig(segments[0], segments[1], segments[2], segments[3], signedHeaders, signature))
  }

  function ParseQuerySig(query: seq<Pair>): Option<ParsedSig> {
    var credential, headers, signature :=
      Get(query, "X-Amz-Credential"), Get(query, "X-Amz-SignedHeaders"), Get(query, SIGNATURE_KEY);
    if credential == "" || headers == "" || signature == "" then None
    else ParseCredential(credential, Split(headers, ';'), signature)
  }

  function Values(headers: map<string, seq<string>>, name: string): seq<string> {
    if name in headers then headers[name] else []
  }

  function Cleaned(vals: seq<string>): seq<string> {
    if vals == [] then [] else [CollapseSpaces(Trim(vals[0]), false)] + Cleaned(vals[1..])
  }

  function CanonicalHeaders(req: Request, names: seq<string>): string {
    if names == [] then ""
    else
      var name := Lower(Trim(names[0]));
      var value := if name == "host" then req.host else Join(Cleaned(Values(req.headers, name)), ",");
      name + ":" + value + "\n" + CanonicalHeaders(req, names[1..])
  }

  function HeaderGet(req: Request, name: string): string {
    var vals := Values(req.headers, name);
    if vals == [] then "" else vals[0]
  }

  function PayloadHash(req: Request): string {
    var declared := HeaderGet(req, "x-amz-content-sha256");
    if declared == "" then "UNSIGNED-PAYLOAD" else declared
  }

  function RequestTimestamp(req: Request, query: seq<Pair>, date: string): string {
    var header := Trim(HeaderGet(req, "x-amz-date"));
    var ts := if header == "" then Trim(Get(query, "X-Amz-Date")) else header;
    if ts == "" && |date| == 8 then date + "T000000Z" else ts
  }

  function RebuiltRequest(req: Request, path: string, ranged: seq<Pair>, parsed: ParsedSig): string
    requires IsBytes(path) && forall i | 0 <= i < |ranged| :: PairBytes(ranged[i])
  {
    CanonicalRequest(Upper(req.verb), CanonicalPath(path), CanonicalOf(ranged), CanonicalHeaders(req, parsed.signedHeaders),
                     Join(parsed.signedHeaders, ";"), PayloadHash(req))
  }

  function RebuiltString(c: Crypto, req: Request, path: string, query: seq<Pair>, ranged: seq<Pair>, parsed: ParsedSig): string
    requires IsBytes(path) && forall i | 0 <= i < |ranged| :: PairBytes(ranged[i])
  {
    StringToSign(c, RequestTimestamp(req, query, parsed.date), Scope(parsed.date, parsed.region, parsed.service),
                 RebuiltRequest(req, path, ranged, parsed))
  }

  method BuildCanonicalRequest(req: Request, path: string, ranged: seq<Pair>, parsed: ParsedSig) returns (request: string)
    requires IsBytes(path) && forall i | 0 <= i < |ranged| :: PairBytes(ranged[i])
    ensures request == RebuiltRequest(req, path, ranged, parsed)
  {
    var uri := CanonicalURI(path);
    var query := CanonicalQueryString(ranged);
    request := CanonicalRequest(Upper(req.verb), uri, query, CanonicalHeaders(req, parsed.signedHeaders),
                                Join(parsed.signedHeaders, ";"), PayloadHash(req));
  }

  predicate SignaturesMatch(expected: string, actual: string) {
    var e, a := HexDecode(Lower(Trim(expected))), HexDecode(Lower(Trim(actual)));
    e.Some? && a.Some? && e == a
  }

  /** A request and the order in which the verifier ranges over the map of its query. */
  ghost predicate RangesOver(ranged: seq<Pair>, target: string) {
    match ParseTarget(target)
    case None => true
    case Some(parsed) => Elems(ranged) == Elems(ParseQuery(parsed.1))
  }

  lemma RangedBytes(ranged: seq<Pair>, target: string)
    requires IsBytes(target) && RangesOver(ranged, target) && ParseTarget(target).Some?
    ensures IsBytes(ParseTarget(target).value.0)
    ensures forall i | 0 <= i < |ranged| :: PairBytes(ranged[i])
  {
    var i := Find(target, '?');
    UnescapeBytes(target[..i], false);
    var raw := ParseTarget(target).value.1;
    ParseQueryBytes(raw);
    forall i | 0 <= i < |ranged| ensures PairBytes(ranged[i]) {
      assert ranged[i] in Elems(ranged);
      assert ranged[i] in Elems(ParseQuery(raw));
    }
  }

  /** The check of a request whose target has been parsed. */
  function CheckSignature(c: Crypto, secretOf: string -> Option<string>, req: Request, path: string, query: seq<Pair>, ranged: seq<Pair>): Verdict
    requires IsBytes(path) && forall i | 0 <= i < |ranged| :: PairBytes(ranged[i])
  {
    if forall p | p in query :: p.key != "X-Amz-Algorithm" then NotPresigned
    else
      var parsed := ParseQuerySig(query);
      if parsed.None? then MalformedSignature
      else
        var p := parsed.value;
        var secret := secretOf(p.accessKey);
        if secret.None? then UnknownAccessKey
        else if SignaturesMatch(Sign(c, secret.value, p.date, p.region, p.service, RebuiltString(c, req, path, query, ranged, p)), p.signature)
        then Accepted(p.accessKey)
        else SignatureMismatch
  }

  /** The signature check of a presigned request. */
  function Verify(c: Crypto, secretOf: string -> Option<string>, req: Request, ranged: seq<Pair>): Verdict
    requires IsBytes(req.target) && RangesOver(ranged, req.target)
  {
    var url := ParseTarget(req.target);
    if url.None? then BadRequest
    else
      RangedBytes(ranged, req.target);
      CheckSignature(c, secretOf, req, url.value.0, ParseQuery(url.value.1), ranged)
  }

  // ---------------------------------------------------------------- the parameters

  lemma {:induction false} DecimalDigits(n: nat)
    ensures AllUnreserved(Decimal(n))
  {
    if n >= 10 {
      DecimalDigits(n / 10);
    }
  }

  lemma ValidAround(a: string, b: string)
    requires IsBytes(a) && IsBytes(b) && ValidUtf8(a) && ValidUtf8(b)
    ensures IsBytes(a + "/" + b) && ValidUtf8(a + "/" + b)
  {
    ToValidIff(a);
    ToValidIff(b);
    ToValidAround(a, '/', b);
    ToValidIff(a + "/" + b);
  }

  lemma AsciiIsValid(s: string)
    requires Ascii(s)
    ensures IsBytes(s) && ValidUtf8(s)
  {
    AsciiValid(s);
    ToValidIff(s);
  }

  predicate Valid(s: string) {
    IsBytes(s) && ValidUtf8(s)
  }

  lemma ScopeValid(access: string, date: string, region: string, tail: string)
    requires Valid(access) && Ascii(date) && Valid(region) && Ascii(tail)
    ensures Valid(access + "/" + date + "/" + region + "/" + tail)
  {
    AsciiIsValid(date);
    AsciiIsValid(tail);
    ValidAround(access, date);
    ValidAround(access + "/" + date, region);
    ValidAround(access + "/" + date + "/" + region, tail);
  }

  lemma CredentialForm(o: PresignOptions, t: Stamp, tail: string)
    requires tail == "s3/aws4_request"
    ensures Credential(o, t) == o.accessKey + "/" + t.date + "/" + RegionOf(o) + "/" + tail && Ascii(tail)
  {
    assert "/" + tail == "/s3/aws4_request";
  }

  lemma CredentialValid(o: PresignOptions, t: Stamp, tail: string)
    requires OptionBytes(o) && IsStamp(t) && tail == "s3/aws4_request"
    ensures Valid(Credential(o, t))
  {
    CredentialForm(o, t, tail);
    if o.region == "" {
      AsciiIsValid(RegionOf(o));
    }
    ScopeValid(o.accessKey, t.date, RegionOf(o), tail);
  }

  lemma ParamKeys(o: PresignOptions, t: Stamp, i: nat)
    requires i < 5
    ensures AllUnreserved(Params(o, t)[i].key)
  {
  }

  lemma ParamKeysDiffer(o: PresignOptions, t: Stamp, i: nat)
    requires i < 5
    ensures Params(o, t)[i].key != SIGNATURE_KEY
  {
    KeysDiffer();
  }

  lemma ParamValues(o: PresignOptions, t: Stamp, i: nat)
    requires i < 5 && OptionBytes(o) && IsStamp(t)
    ensures i != 1 ==> Ascii(Params(o, t)[i].value)
  {
    if i == 2 {
      TimestampAscii(t);
    } else if i == 3 {
      DecimalAscii(if o.expires <= 0 then 3600 else o.expires);
    } else if i != 1 {
      WordAscii(Params(o, t)[i].value);
    }
  }

  lemma WordAscii(s: string)
    requires s == "AWS4-HMAC-SHA256" || s == "host"
    ensures Ascii(s)
  {
  }

  lemma TimestampAscii(t: Stamp)
    requires IsStamp(t)
    ensures Ascii(Timestamp(t))
  {
  }

  lemma DecimalAscii(n: nat)
    ensures Ascii(Decimal(n))
  {
    DecimalDigits(n);
  }

  lemma KeysDiffer()
    ensures SIGNATURE_KEY !in ["X-Amz-Algorithm", "X-Amz-Credential", "X-Amz-Date", "X-Amz-Expires", "X-Amz-SignedHeaders"]
  {
    assert SIGNATURE_KEY[6] != "X-Amz-Algorithm"[6];
    assert SIGNATURE_KEY[6] != "X-Amz-Credential"[6] && SIGNATURE_KEY[6] != "X-Amz-Date"[6];
    assert SIGNATURE_KEY[6] != "X-Amz-Expires"[6] && |SIGNATURE_KEY| != |"X-Amz-SignedHeaders"|;
  }

  lemma ParamsPlain(o: PresignOptions, t: Stamp)
    requires OptionBytes(o) && IsStamp(t)
    ensures PlainKeys(Params(o, t)) && forall i | 0 <= i < |Params(o, t)| :: Params(o, t)[i].key != SIGNATURE_KEY
  {
    var ps := Params(o, t);
    forall i | 0 <= i < |ps|
      ensures PairValid(ps[i]) && Encode(ps[i].key) == ps[i].key && ps[i].key != SIGNATURE_KEY
    {
      ParamKeys(o, t, i);
      ParamKeysDiffer(o, t, i);
      EncodeUnreserved(ps[i].key);
      if i == 1 {
        var tail := "s3/aws4_request";
        CredentialValid(o, t, tail);
      } else {
        ParamValues(o, t, i);
        AsciiIsValid(ps[i].value);
      }
    }
  }

  lemma OrderPlain(o: PresignOptions, t: Stamp, order: seq<Pair>)
    requires OptionBytes(o) && IsStamp(t) && Arranged(order, o, t)
    ensures PlainKeys(order) && forall i | 0 <= i < |order| :: order[i].key != SIGNATURE_KEY
  {
    ParamsPlain(o, t);
    SamePairsPlain(Params(o, t), order);
    forall i | 0 <= i < |order| ensures order[i].key != SIGNATURE_KEY {
      assert order[i] in Elems(order);
      assert order[i] in Params(o, t);
    }
  }

  /** parseInt of internal/auth/verifier.go. */
  function ParseInt(s: string): Option<nat> {
    if s == "" then Some(0)
    else
      var init, c := ParseInt(s[..|s| - 1]), s[|s| - 1];
      if init.None? || !('0' <= c <= '9') then None else Some(init.value * 10 + (c as int - '0' as int))
  }

  /** The expiry comes back from its decimal form. */
  lemma {:induction false} ParseIntDecimal(n: nat)
    ensures ParseInt(Decimal(n)) == Some(n)
  {
    var d := Decimal(n);
    DigitForm(n % 10);
    if n < 10 {
      assert d[..0] == "" && n % 10 == n;
    } else {
      ParseIntDecimal(n / 10);
      assert d[..|d| - 1] == Decimal(n / 10);
    }
  }

  lemma DigitForm(x: int)
    requires 0 <= x < 10
    ensures "0123456789"[x] as int == '0' as int + x
  {
  }

  /** What stands where nothing is asked for: region us-east-1, an hour, and GET. */
  lemma PresignDefaults(o: PresignOptions, t: Stamp)
    ensures o.region == "" ==> Credential(o, t) == o.accessKey + "/" + t.date + "/" + "us-east-1" + "/s3/aws4_request"
    ensures o.expires <= 0 ==> Pair("X-Amz-Expires", Decimal(3600)) in Params(o, t)
    ensures o.expires > 0 ==> Pair("X-Amz-Expires", Decimal(o.expires)) in Params(o, t)
    ensures o.verb == "" ==> VerbOf(o) == "GET"
    ensures o.verb != "" ==> VerbOf(o) == Upper(o.verb)
  {
    var ps := Params(o, t);
    assert ps[3] in ps;
  }

  ghost predicate DoubleSpace(s: string) {
    exists i :: 0 <= i && i + 1 < |s| && s[i] == ' ' && s[i + 1] == ' '
  }

  /** Runs of spaces in a header value become one space, and nothing else changes. */
  lemma {:induction false} CollapseMeans(s: string, afterSpace: bool)
    ensures !DoubleSpace(CollapseSpaces(s, afterSpace))
    ensures afterSpace && CollapseSpaces(s, true) != "" ==> CollapseSpaces(s, true)[0] != ' '
  {
    if s != "" {
      if s[0] == ' ' {
        CollapseMeans(s[1..], true);
        NoDouble(' ', CollapseSpaces(s[1..], true));
        assert "" + CollapseSpaces(s[1..], true) == CollapseSpaces(s[1..], true);
      } else {
        CollapseMeans(s[1..], false);
        NoDouble(s[0], CollapseSpaces(s[1..], false));
      }
    }
  }

  lemma NoDouble(c: char, s: string)
    requires !DoubleSpace(s) && (c == ' ' && s != "" ==> s[0] != ' ')
    ensures !DoubleSpace([c] + s)
  {
    forall i | 0 <= i && i + 1 < |s| + 1
      ensures !(([c] + s)[i] == ' ' && ([c] + s)[i + 1] == ' ')
    {
      if i > 0 { assert !(s[i - 1] == ' ' && s[i] == ' '); }
    }
  }

  lemma {:induction false} CollapseKeeps(s: string)
    requires !DoubleSpace(s)
    ensures CollapseSpaces(s, false) == s
    ensures s != "" && s[0] != ' ' ==> CollapseSpaces(s, true) == s
  {
    if s != "" {
      forall i | 0 <= i && i + 1 < |s[1..]| ensures !(s[1..][i] == ' ' && s[1..][i + 1] == ' ') {
        assert !(s[i + 1] == ' ' && s[i + 2] == ' ');
      }
      CollapseKeeps(s[1..]);
      assert s == [s[0]] + s[1..];
      assert |s| > 1 ==> !(s[0] == ' ' && s[1] == ' ');
    }
  }

  // ---------------------------------------------------------------- the signature in the query

  predicate LowerHex(s: string) {
    forall i | 0 <= i < |s| :: '0' <= s[i] <= '9' || 'a' <= s[i] <= 'f'
  }

  lemma HexByteIsHex(x: int)
    requires 0 <= x < 256
    ensures LowerHex(HexByte(x)) && |HexByte(x)| == 2
  {
  }

  lemma {:induction false} HexEncodeIsHex(b: string)
    ensures LowerHex(HexEncode(b)) && |HexEncode(b)| == 2 * |b|
  {
    if b != "" {
      HexByteIsHex(b[0] as int % 256);
      HexEncodeIsHex(b[1..]);
    }
  }

  lemma {:induction false} HexDecodes(s: string)
    requires LowerHex(s) && |s| % 2 == 0
    ensures HexDecode(s).Some?
  {
    if s != "" { HexDecodes(s[2..]); }
  }

  lemma {:induction false} LowerHexLower(s: string)
    requires LowerHex(s)
    ensures Lower(s) == s
  {
    if s != "" {
      LowerHexLower(s[1..]);
      assert s == [s[0]] + s[1..];
    }
  }

  lemma TrimNothing(s: string)
    requires s != "" ==> !White(s[0]) && !White(s[|s| - 1])
    ensures Trim(s) == s
  {
  }

  lemma HexMatches(s: string)
    requires LowerHex(s) && |s| % 2 == 0
    ensures SignaturesMatch(s, s)
  {
    TrimNothing(s);
    LowerHexLower(s);
    HexDecodes(s);
  }

  lemma {:induction false} JoinSnoc(parts: seq<string>, x: string, sep: string)
    requires parts != []
    ensures Join(parts + [x], sep) == Join(parts, sep) + sep + x
  {
    if |parts| > 1 {
      assert (parts + [x])[1..] == parts[1..] + [x];
      JoinSnoc(parts[1..], x, sep);
    }
  }

  /** The query of a presigned URL, parsed. */
  function SentQuery(order: seq<Pair>, sig: string): seq<Pair> {
    SortBy(KeyLess, order) + [Pair(SIGNATURE_KEY, sig)]
  }

  lemma SignatureKeyUnreserved(key: string)
    requires key == SIGNATURE_KEY
    ensures AllUnreserved(key)
  {
  }

  lemma SignaturePair(sig: string, key: string)
    requires LowerHex(sig) && AllUnreserved(key)
    ensures PairValid(Pair(key, sig)) && EncodePair(Pair(key, sig)) == Pair(key, sig)
  {
    EncodeUnreserved(key);
    EncodeUnreserved(sig);
  }

  lemma OneMoreParses(ps: seq<Pair>, last: Pair)
    requires ps != [] && AllValid(ps) && PairValid(last) && EncodePair(last) == last
    ensures ParseQuery(Join(Texts(EncodePairs(ps)), "&") + "&" + Text(last)) == ps + [last]
  {
    var all := ps + [last];
    forall i | 0 <= i < |all| ensures PairValid(all[i]) {
      assert i < |ps| ==> all[i] == ps[i];
    }
    ParseQueryRoundTrip(all);
    TextsSnoc(ps, last);
    JoinSnoc(Texts(EncodePairs(ps)), Text(last), "&");
  }

  lemma SentQueryParses(order: seq<Pair>, sig: string, key: string)
    requires order != [] && PlainKeys(order) && LowerHex(sig) && key == SIGNATURE_KEY
    ensures ParseQuery(SignedOf(order) + "&" + key + "=" + sig) == SentQuery(order, sig)
  {
    SortElems(KeyLess, order);
    var sorted := SortBy(KeyLess, order);
    SamePairsPlain(order, sorted);
    SignatureKeyUnreserved(key);
    SignaturePair(sig, key);
    OneMoreParses(sorted, Pair(key, sig));
    Append(SignedOf(order) + "&", key + "=", sig);
    Append(SignedOf(order) + "&", key, "=");
  }

  lemma TextsSnoc(ps: seq<Pair>, p: Pair)
    requires (forall i | 0 <= i < |ps| :: PairBytes(ps[i])) && PairBytes(p) && EncodePair(p) == p
    ensures forall i | 0 <= i < |ps + [p]| :: PairBytes((ps + [p])[i])
    ensures Texts(EncodePairs(ps + [p])) == Texts(EncodePairs(ps)) + [Text(p)]
  {
    var qs := ps + [p];
    assert forall i | 0 <= i < |ps| :: qs[i] == ps[i];
    assert qs[|ps|] == p;
  }

  lemma SentQueryDistinct(order: seq<Pair>, sig: string)
    requires DistinctKeys(order) && forall i | 0 <= i < |order| :: order[i].key != SIGNATURE_KEY
    ensures DistinctKeys(SentQuery(order, sig)) && Elems(SentQuery(order, sig)) == Elems(order) + {Pair(SIGNATURE_KEY, sig)}
  {
    var sorted := SortBy(KeyLess, order);
    KeysTotal(order);
    SortByAscending(KeyLess, order);
    forall i | 0 <= i < |sorted| ensures sorted[i].key != SIGNATURE_KEY {
      assert sorted[i] in Elems(sorted);
      assert sorted[i] in Elems(order);
    }
    forall i, j | 0 <= i < j < |sorted| ensures sorted[i].key != sorted[j].key {
      assert KeyLess(sorted[i], sorted[j]);
      LessIrreflexive(sorted[i].key);
    }
    ElemsSnoc(sorted, Pair(SIGNATURE_KEY, sig));
  }

  lemma SentQueryLookups(o: PresignOptions, t: Stamp, order: seq<Pair>, sig: string)
    requires OptionBytes(o) && IsStamp(t) && Arranged(order, o, t)
    ensures var q := SentQuery(order, sig);
            && Get(q, "X-Amz-Credential") == Credential(o, t) && Get(q, "X-Amz-Date") == Timestamp(t)
            && Get(q, "X-Amz-SignedHeaders") == "host" && Get(q, SIGNATURE_KEY) == sig
            && exists p :: p in q && p.key == "X-Amz-Algorithm"
  {
    OrderPlain(o, t, order);
    SentQueryDistinct(order, sig);
    var q, ps := SentQuery(order, sig), Params(o, t);
    forall i | 0 <= i < 5 ensures ps[i] in q && Get(q, ps[i].key) == ps[i].value {
      SentHas(o, t, order, sig, i);
      GetDistinct(q, ps[i]);
    }
    assert ps[0] in q && ps[1] in q && ps[2] in q && ps[4] in q;
    assert Pair(SIGNATURE_KEY, sig) in q;
    GetDistinct(q, Pair(SIGNATURE_KEY, sig));
  }

  lemma SentHas(o: PresignOptions, t: Stamp, order: seq<Pair>, sig: string, i: nat)
    requires i < 5 && Elems(order) == Elems(Params(o, t))
    ensures Params(o, t)[i] in SentQuery(order, sig)
  {
    SortElems(KeyLess, order);
    assert Params(o, t)[i] in Elems(Params(o, t));
    assert Params(o, t)[i] in Elems(SortBy(KeyLess, order));
  }

  lemma SplitThree(a: string, b: string, c: string, tail: string)
    requires '/' !in a && '/' !in b && '/' !in c
    ensures Split(a + "/" + (b + "/" + (c + "/" + tail)), '/') == [a] + ([b] + ([c] + Split(tail, '/')))
  {
    SplitFirst(c, '/', tail);
    SplitFirst(b, '/', c + "/" + tail);
    SplitFirst(a, '/', b + "/" + (c + "/" + tail));
  }

  lemma SplitTail(tail: string, service: string, end: string)
    requires '/' !in service && '/' !in end && tail == service + "/" + end
    ensures Split(tail, '/') == [service] + [end]
  {
    SplitNone(end, '/');
    SplitFirst(service, '/', end);
  }

  lemma CredentialSplits(access: string, date: string, region: string, tail: string, service: string, end: string)
    requires '/' !in access && '/' !in date && '/' !in region && '/' !in service && '/' !in end
    requires tail == service + "/" + end
    ensures Split(access + "/" + date + "/" + region + "/" + tail, '/') == [access, date, region, service, end]
  {
    SplitTail(tail, service, end);
    SplitThree(access, date, region, tail);
    Nested(access, date, region, tail);
    assert [access] + ([date] + ([region] + ([service] + [end]))) == [access, date, region, service, end];
  }

  lemma Nested(a: string, b: string, c: string, d: string)
    ensures a + "/" + b + "/" + c + "/" + d == a + "/" + (b + "/" + (c + "/" + d))
  {
  }

  function ParsedAs(o: PresignOptions, t: Stamp, sig: string): ParsedSig {
    ParsedSig(o.accessKey, t.date, RegionOf(o), "s3", ["host"], sig)
  }

  lemma OwnCredentialParses(o: PresignOptions, t: Stamp, sig: string, headers: seq<string>)
    requires ScopeSafe(o) && IsStamp(t)
    ensures ParseCredential(Credential(o, t), headers, sig) == Some(ParsedAs(o, t, sig).(signedHeaders := headers))
  {
    var service, end := "s3", "aws4_request";
    var tail := service + "/" + end;
    CredentialForm(o, t, tail);
    assert '/' !in RegionOf(o);
    CredentialSplits(o.accessKey, t.date, RegionOf(o), tail, service, end);
  }

  /** The parsed URL names the access key, date, region and signature that were signed. */
  lemma SentQueryIdentifies(o: PresignOptions, t: Stamp, order: seq<Pair>, sig: string)
    requires OptionBytes(o) && ScopeSafe(o) && IsStamp(t) && Arranged(order, o, t) && sig != ""
    ensures ParseQuerySig(SentQuery(order, sig)) == Some(ParsedAs(o, t, sig))
  {
    SentQueryLookups(o, t, order, sig);
    SplitNone("host", ';');
    OwnCredentialParses(o, t, sig, ["host"]);
  }

  // ---------------------------------------------------------------- the target

  lemma SignedPathChars(bucket: string, key: string)
    requires IsBytes(bucket) && IsBytes(key)
    ensures forall c | c in SignedPath(bucket, key) :: EscapedChar(c, true)
  {
    ToValidBytes(bucket);
    EscapeChars(ToValid(bucket), false);
    SegmentsArePath(key);
    ToValidBytes(key);
    EscapeChars(ToValid(key), true);
  }

  lemma TargetParses(path: string, raw: string, decoded: string)
    requires '?' !in path && Unescape(path, false) == Some(decoded)
    ensures ParseTarget(path + "?" + raw) == Some((decoded, raw))
  {
    var target := path + "?" + raw;
    FindFirst(path, '?', raw);
    assert target[..|path|] == path && target[|path| + 1..] == raw;
  }

  lemma {:induction false} JoinBytes(parts: seq<string>, sep: string)
    requires AllBytes(parts) && IsBytes(sep)
    ensures IsBytes(Join(parts, sep))
  {
    if |parts| > 1 { JoinBytes(parts[1..], sep); }
  }

  lemma EncodeBytes(s: string)
    requires IsBytes(s)
    ensures IsBytes(Encode(s))
  {
    ToValidBytes(s);
    EscapeChars(ToValid(s), false);
    var e := Encode(s);
    forall i | 0 <= i < |e| ensures e[i] as int < 256 {
      assert e[i] in e;
    }
  }

  lemma TextBytes(p: Pair)
    requires PairBytes(p)
    ensures IsBytes(Text(EncodePair(p)))
  {
    EncodeBytes(p.key);
    EncodeBytes(p.value);
  }

  lemma SignedOfBytes(order: seq<Pair>)
    requires forall i | 0 <= i < |order| :: PairBytes(order[i])
    ensures IsBytes(SignedOf(order))
  {
    SortedBytes(order);
    var sorted := SortBy(KeyLess, order);
    var parts := Texts(EncodePairs(sorted));
    forall i | 0 <= i < |parts| ensures IsBytes(parts[i]) {
      TextBytes(sorted[i]);
    }
    JoinBytes(parts, "&");
  }

  lemma SignedPathBytes(bucket: string, key: string)
    requires IsBytes(bucket) && IsBytes(key)
    ensures IsBytes(SignedPath(bucket, key)) && '?' !in SignedPath(bucket, key)
  {
    SignedPathChars(bucket, key);
    var s := SignedPath(bucket, key);
    forall i | 0 <= i < |s| ensures s[i] as int < 256 {
      assert s[i] in s;
    }
  }

  // ---------------------------------------------------------------- the round trip

  /** What the client adds to the URL: the signed method and host, and no headers that override the
      signing time or the payload hash. */
  predicate Faithful(req: Request, o: PresignOptions) {
    && Upper(req.verb) == VerbOf(o) && req.host == o.host
    && Values(req.headers, "x-amz-date") == [] && Values(req.headers, "x-amz-content-sha256") == []
  }

  /** The bucket is one path segment, and the object's path is not itself an escaped path. */
  predicate PathSafe(o: PresignOptions) {
    var path := ToValid(ObjectPath(o.bucket, o.key));
    '/' !in o.bucket && ('%' !in path || Unescape(path, false).None?)
  }

  lemma HostOnly(req: Request)
    ensures CanonicalHeaders(req, ["host"]) == "host:" + req.host + "\n"
  {
    assert Lower(Trim("host")) == "host";
    assert ["host"][1..] == [];
    assert CanonicalHeaders(req, []) == "";
  }

  lemma StampTrimmed(t: Stamp)
    requires IsStamp(t)
    ensures Timestamp(t) != "" && Trim(Timestamp(t)) == Timestamp(t)
  {
    TrimNothing(Timestamp(t));
  }

  /** The request line in two pieces around the path. */
  lemma RequestAroundPath(verb: string, uri: string, query: string, headers: string, signed: string, payload: string)
    ensures CanonicalRequest(verb, uri, query, headers, signed, payload) ==
              verb + "\n" + (uri + ("\n" + Join([query, headers, signed, payload], "\n")))
  {
    var all := [verb, uri, query, headers, signed, payload];
    assert all[1..] == [uri, query, headers, signed, payload];
    assert all[1..][1..] == [query, headers, signed, payload];
    var rest := Join([query, headers, signed, payload], "\n");
    assert Join(all[1..], "\n") == uri + "\n" + rest;
    assert uri + "\n" + rest == uri + ("\n" + rest);
  }

  lemma RequestsDifferInPath(verb: string, uri: string, other: string, query: string, headers: string, signed: string, payload: string)
    ensures (CanonicalRequest(verb, uri, query, headers, signed, payload) == CanonicalRequest(verb, other, query, headers, signed, payload))
              == (uri == other)
  {
    RequestAroundPath(verb, uri, query, headers, signed, payload);
    RequestAroundPath(verb, other, query, headers, signed, payload);
    CancelAround(verb + "\n", uri, other, "\n" + Join([query, headers, signed, payload], "\n"));
  }

  lemma CancelAround(a: string, x: string, y: string, b: string)
    ensures a + (x + b) == a + (y + b) ==> x == y
  {
    var s := a + (x + b);
    assert s[|a|..] == x + b && (x + b)[..|x|] == x;
    assert (a + (y + b))[|a|..] == y + b && (y + b)[..|y|] == y;
  }

  ghost predicate FixedLength(c: Crypto) {
    forall k, d :: |c.hmac(k, d)| == 32
  }

  /** A client requests the URL that was signed at `t`; `order` and `ranged` are the orders in which
      the two sides range over their maps. */
  ghost predicate Sent(c: Crypto, o: PresignOptions, t: Stamp, order: seq<Pair>, req: Request, ranged: seq<Pair>) {
    && FixedLength(c) && OptionBytes(o) && ScopeSafe(o) && IsStamp(t) && Arranged(order, o, t)
    && (forall i | 0 <= i < |order| :: PairBytes(order[i]))
    && req.target == PresignedTarget(c, o, t, order) && Faithful(req, o)
    && RangesOver(ranged, req.target) && DistinctKeys(ranged)
  }

  lemma SignatureIsHex(c: Crypto, secret: string, date: string, region: string, service: string, text: string)
    requires FixedLength(c)
    ensures var sig := Sign(c, secret, date, region, service, text);
            LowerHex(sig) && IsBytes(sig) && sig != "" && SignaturesMatch(sig, sig)
  {
    var b := c.hmac(SigningKey(c, secret, date, region, service), text);
    HexEncodeIsHex(b);
    var sig := HexEncode(b);
    HexMatches(sig);
  }

  lemma RawQueryBytes(query: string, key: string, sig: string)
    requires IsBytes(query) && IsBytes(key) && IsBytes(sig)
    ensures IsBytes(query + "&" + key + "=" + sig)
  {
  }

  lemma TargetFacts(o: PresignOptions, raw: string)
    requires OptionBytes(o) && IsBytes(raw)
    ensures var target := SignedPath(o.bucket, o.key) + "?" + raw;
            IsBytes(target) && ParseTarget(target) == Some((ToValid(ObjectPath(o.bucket, o.key)), raw))
  {
    SignedPathBytes(o.bucket, o.key);
    SignedPathDecodes(o.bucket, o.key);
    TargetParses(SignedPath(o.bucket, o.key), raw, ToValid(ObjectPath(o.bucket, o.key)));
  }

  lemma SentRawBytes(order: seq<Pair>, sig: string)
    requires (forall i | 0 <= i < |order| :: PairBytes(order[i])) && IsBytes(sig)
    ensures IsBytes(RawQuery(order, sig))
  {
    SignedOfBytes(order);
    SignatureKeyBytes(SIGNATURE_KEY);
    RawQueryBytes(SignedOf(order), SIGNATURE_KEY, sig);
  }

  lemma SignatureKeyBytes(key: string)
    requires key == SIGNATURE_KEY
    ensures IsBytes(key)
  {
  }

  lemma SentRawParses(order: seq<Pair>, sig: string)
    requires order != [] && PlainKeys(order) && LowerHex(sig)
    ensures ParseQuery(RawQuery(order, sig)) == SentQuery(order, sig)
  {
    SentQueryParses(order, sig, SIGNATURE_KEY);
  }

  /** What the verifier makes of the target. */
  lemma SentTarget(c: Crypto, o: PresignOptions, t: Stamp, order: seq<Pair>)
    requires FixedLength(c) && OptionBytes(o) && IsStamp(t) && Arranged(order, o, t)
    requires forall i | 0 <= i < |order| :: PairBytes(order[i])
    ensures var sig, target := SignatureFor(c, o, t, order), PresignedTarget(c, o, t, order);
            && IsBytes(target) && LowerHex(sig) && sig != ""
            && ParseTarget(target) == Some((ToValid(ObjectPath(o.bucket, o.key)), RawQuery(order, sig)))
            && ParseQuery(RawQuery(order, sig)) == SentQuery(order, sig)
  {
    var sig := SignatureFor(c, o, t, order);
    SignatureIsHex(c, o.secret, t.date, RegionOf(o), "s3", SignedString(c, o, t, order));
    OrderNotEmpty(o, t, order);
    OrderPlain(o, t, order);
    SentRawBytes(order, sig);
    SentRawParses(order, sig);
    TargetFacts(o, RawQuery(order, sig));
  }

  lemma OrderNotEmpty(o: PresignOptions, t: Stamp, order: seq<Pair>)
    requires Elems(order) == Elems(Params(o, t))
    ensures order != []
  {
    assert Params(o, t)[0] in Elems(Params(o, t));
  }

  lemma RangedQuery(o: PresignOptions, t: Stamp, order: seq<Pair>, ranged: seq<Pair>, sig: string)
    requires OptionBytes(o) && IsStamp(t) && Arranged(order, o, t) && DistinctKeys(ranged) && LowerHex(sig)
    requires Elems(ranged) == Elems(SentQuery(order, sig))
    requires forall i | 0 <= i < |order| :: PairBytes(order[i])
    requires forall i | 0 <= i < |ranged| :: PairBytes(ranged[i])
    ensures CanonicalOf(ranged) == SignedOf(order)
  {
    OrderPlain(o, t, order);
    SentQueryDistinct(order, sig);
    QueryOrderIrrelevant(order, ranged, sig);
  }

  /** Whatever order the maps are ranged over, the verifier rebuilds the canonical request that was
      signed exactly when the path is safe. */
  lemma RequestRoundTripIff(c: Crypto, o: PresignOptions, t: Stamp, order: seq<Pair>, req: Request, ranged: seq<Pair>)
    requires Sent(c, o, t, order, req, ranged)
    ensures IsBytes(req.target) && ParseTarget(req.target).Some?
    ensures IsBytes(ParseTarget(req.target).value.0) && forall i | 0 <= i < |ranged| :: PairBytes(ranged[i])
    ensures var (path, raw) := ParseTarget(req.target).value;
            var sig := SignatureFor(c, o, t, order);
            && ParseQuery(raw) == SentQuery(order, sig)
            && ParseQuerySig(ParseQuery(raw)) == Some(ParsedAs(o, t, sig))
            && (RebuiltRequest(req, path, ranged, ParsedAs(o, t, sig)) == SignedRequest(o, order) <==> PathSafe(o))
  {
    var sig := SignatureFor(c, o, t, order);
    SentTarget(c, o, t, order);
    RangedBytes(ranged, req.target);
    SentQueryIdentifies(o, t, order, sig);
    RangedQuery(o, t, order, ranged, sig);
    RebuiltIff(o, t, order, req, ranged, sig);
  }

  lemma RebuiltIff(o: PresignOptions, t: Stamp, order: seq<Pair>, req: Request, ranged: seq<Pair>, sig: string)
    requires OptionBytes(o) && Faithful(req, o)
    requires forall i | 0 <= i < |order| :: PairBytes(order[i])
    requires forall i | 0 <= i < |ranged| :: PairBytes(ranged[i])
    requires CanonicalOf(ranged) == SignedOf(order)
    ensures IsBytes(ToValid(ObjectPath(o.bucket, o.key)))
    ensures RebuiltRequest(req, ToValid(ObjectPath(o.bucket, o.key)), ranged, ParsedAs(o, t, sig)) == SignedRequest(o, order) <==> PathSafe(o)
  {
    PathRoundTripIff(o.bucket, o.key);
    HostOnly(req);
    var path := ToValid(ObjectPath(o.bucket, o.key));
    RequestsDifferInPath(VerbOf(o), CanonicalPath(path), SignedPath(o.bucket, o.key), SignedOf(order),
                         "host:" + o.host + "\n", "host", "UNSIGNED-PAYLOAD");
  }

  lemma TimestampFound(req: Request, query: seq<Pair>, t: Stamp)
    requires IsStamp(t) && Values(req.headers, "x-amz-date") == [] && Get(query, "X-Amz-Date") == Timestamp(t)
    ensures RequestTimestamp(req, query, t.date) == Timestamp(t)
  {
    StampTrimmed(t);
    assert Trim("") == "";
  }

  /** When the path is safe the string to sign is the same too. */
  lemma StringRoundTrip(c: Crypto, o: PresignOptions, t: Stamp, order: seq<Pair>, req: Request, ranged: seq<Pair>)
    requires Sent(c, o, t, order, req, ranged)
    ensures IsBytes(req.target) && ParseTarget(req.target).Some?
    ensures IsBytes(ParseTarget(req.target).value.0) && forall i | 0 <= i < |ranged| :: PairBytes(ranged[i])
    ensures var (path, raw) := ParseTarget(req.target).value;
            var sig := SignatureFor(c, o, t, order);
            && ParseQuerySig(ParseQuery(raw)) == Some(ParsedAs(o, t, sig))
            && (exists p :: p in ParseQuery(raw) && p.key == "X-Amz-Algorithm")
            && (PathSafe(o) ==> RebuiltString(c, req, path, ParseQuery(raw), ranged, ParsedAs(o, t, sig)) == SignedString(c, o, t, order))
  {
    RequestRoundTripIff(c, o, t, order, req, ranged);
    var (path, raw) := ParseTarget(req.target).value;
    SentQueryLookups(o, t, order, SignatureFor(c, o, t, order));
    TimestampFound(req, ParseQuery(raw), t);
  }

  lemma CheckAccepts(c: Crypto, secretOf: string -> Option<string>, req: Request, path: string, query: seq<Pair>, ranged: seq<Pair>,
                     p: ParsedSig)
    requires IsBytes(path) && forall i | 0 <= i < |ranged| :: PairBytes(ranged[i])
    ensures && (exists x :: x in query && x.key == "X-Amz-Algorithm")
            && ParseQuerySig(query) == Some(p) && secretOf(p.accessKey).Some?
            && SignaturesMatch(Sign(c, secretOf(p.accessKey).value, p.date, p.region, p.service,
                                    RebuiltString(c, req, path, query, ranged, p)), p.signature)
            ==> CheckSignature(c, secretOf, req, path, query, ranged) == Accepted(p.accessKey)
  {
  }

  /** A presigned URL with a safe path is accepted, with the access key it was made for. */
  lemma PresignedIsAccepted(c: Crypto, o: PresignOptions, t: Stamp, order: seq<Pair>, req: Request, ranged: seq<Pair>,
                            secretOf: string -> Option<string>)
    requires Sent(c, o, t, order, req, ranged)
    ensures IsBytes(req.target)
    ensures PathSafe(o) && secretOf(o.accessKey) == Some(o.secret) ==>
              Verify(c, secretOf, req, ranged) == Accepted(o.accessKey)
  {
    StringRoundTrip(c, o, t, order, req, ranged);
    if PathSafe(o) && secretOf(o.accessKey) == Some(o.secret) {
      SignatureIsHex(c, o.secret, t.date, RegionOf(o), "s3", SignedString(c, o, t, order));
      var (path, raw) := ParseTarget(req.target).value;
      CheckAccepts(c, secretOf, req, path, ParseQuery(raw), ranged, ParsedAs(o, t, SignatureFor(c, o, t, order)));
    }
  }

  lemma {:induction false} UpperTwice(s: string)
    ensures Upper(Upper(s)) == Upper(s)
  {
    if s != "" {
      UpperTwice(s[1..]);
      assert Upper(s)[1..] == Upper(s[1..]);
    }
  }

  lemma VerbUpper(o: PresignOptions)
    ensures Upper(VerbOf(o)) == VerbOf(o)
  {
    if o.verb == "" {
      assert Upper("GET") == "GET";
    } else {
      UpperTwice(o.verb);
    }
  }

  lemma ParamsDistinct(o: PresignOptions, t: Stamp)
    ensures DistinctKeys(Params(o, t))
  {
    var ps := Params(o, t);
    assert |ps[0].key| == 15 && |ps[1].key| == 16 && |ps[2].key| == 10 && |ps[3].key| == 13 && |ps[4].key| == 19;
  }

  /** Every presigned URL has such a request: the parameters in any order, and no headers. */
  lemma PresignedCanBeSent(c: Crypto, o: PresignOptions, t: Stamp) returns (order: seq<Pair>, req: Request, ranged: seq<Pair>)
    requires FixedLength(c) && OptionBytes(o) && ScopeSafe(o) && IsStamp(t)
    ensures Sent(c, o, t, order, req, ranged)
  {
    order := Params(o, t);
    ParamsDistinct(o, t);
    OrderPlain(o, t, order);
    VerbUpper(o);
    var sig := SignatureFor(c, o, t, order);
    req := Request(VerbOf(o), PresignedTarget(c, o, t, order), o.host, map[]);
    ranged := SentQuery(order, sig);
    SentTarget(c, o, t, order);
    SentQueryDistinct(order, sig);
  }

  /** A path without a percent sign is safe. */
  lemma NoPercentIsSafe(o: PresignOptions)
    requires '/' !in o.bucket && '%' !in o.bucket && '%' !in o.key
    ensures PathSafe(o)
  {
    ToValidHas(ObjectPath(o.bucket, o.key), '%');
  }

  /** The canonical request the verifier rebuilds is not the one that was signed. */
  ghost predicate RebuiltDiffers(c: Crypto, o: PresignOptions, t: Stamp, order: seq<Pair>, req: Request, ranged: seq<Pair>)
    requires OptionBytes(o) && forall i | 0 <= i < |order| :: PairBytes(order[i])
    requires forall i | 0 <= i < |ranged| :: PairBytes(ranged[i])
    requires ParseTarget(req.target).Some? && IsBytes(ParseTarget(req.target).value.0)
  {
    RebuiltRequest(req, ParseTarget(req.target).value.0, ranged, ParsedAs(o, t, SignatureFor(c, o, t, order))) != SignedRequest(o, order)
  }

  lemma PathUnescapes(start: string, key: string, x: string)
    requires '%' !in start && Unescape(key, false) == Some(x)
    ensures Unescape(start + key, false).Some? && ('%' in key ==> '%' in start + key)
  {
    UnescapePlain(start);
    UnescapeConcat(start, key, start, x);
  }

  function SlashedBucket(bucket: string): string {
    "/" + bucket + "/"
  }

  lemma SlashedHasNoPercent(bucket: string)
    requires '%' !in bucket
    ensures '%' !in SlashedBucket(bucket)
  {
  }

  lemma ValidPath(bucket: string, key: string)
    requires ValidUtf8(bucket) && ValidUtf8(key) && key != ""
    ensures ToValid(ObjectPath(bucket, key)) == SlashedBucket(bucket) + key
  {
    ToValidIff(bucket);
    ToValidIff(key);
    ObjectPathValid(bucket, key);
    Append("/" + bucket, "/", key);
  }

  /** The key holds a percent sign and reads as an escaped string. */
  predicate ReadsAsEscaped(o: PresignOptions) {
    ValidUtf8(o.bucket) && ValidUtf8(o.key) && '%' !in o.bucket && '%' in o.key && Unescape(o.key, false).Some?
  }

  lemma EscapedKeyIsUnsafe(o: PresignOptions)
    ensures ReadsAsEscaped(o) ==> !PathSafe(o)
  {
    if ReadsAsEscaped(o) {
      ValidPath(o.bucket, o.key);
      SlashedHasNoPercent(o.bucket);
      PathUnescapes(SlashedBucket(o.bucket), o.key, Unescape(o.key, false).value);
      UnsafeWhen(o, SlashedBucket(o.bucket) + o.key);
    }
  }

  lemma UnsafeWhen(o: PresignOptions, path: string)
    requires path == ToValid(ObjectPath(o.bucket, o.key)) && '%' in path && Unescape(path, false).Some?
    ensures !PathSafe(o)
  {
  }

  /** Whenever a key holds a percent sign and reads as an escaped string, its presigned URL makes the
      verifier rebuild another canonical request. */
  lemma EscapedKeyMismatch(c: Crypto, o: PresignOptions, t: Stamp, order: seq<Pair>, req: Request, ranged: seq<Pair>)
    requires Sent(c, o, t, order, req, ranged)
    ensures ParseTarget(req.target).Some? && IsBytes(ParseTarget(req.target).value.0)
    ensures forall i | 0 <= i < |ranged| :: PairBytes(ranged[i])
    ensures ReadsAsEscaped(o) ==> RebuiltDiffers(c, o, t, order, req, ranged)
  {
    EscapedKeyIsUnsafe(o);
    RequestRoundTripIff(c, o, t, order, req, ranged);
  }

  lemma UnescapeA(escape: string) returns (x: string)
    requires escape == ['%', '4', '1']
    ensures Unescape(escape, false) == Some(x) && ValidUtf8(escape)
  {
    assert HexValue('4').Some? && HexValue('1').Some?;
    assert escape[3..] == "" && Unescape("", false) == Some("");
    x := [FirstChar(escape).value];
    assert x[1..] == "";
    UnescapeUnfold(escape, x);
    AsciiIsValid(escape);
  }

  lemma ExampleReadsAsEscaped(o: PresignOptions)
    requires o.bucket == ['p', 'i', 'c', 's'] && o.key == ['%', '4', '1']
    ensures ReadsAsEscaped(o)
  {
    var x := UnescapeA(o.key);
    assert o.key[0] == '%';
    AsciiIsValid(o.bucket);
  }

  /** For instance the key %41 of bucket pics. */
  lemma PercentKeyMismatch(c: Crypto, o: PresignOptions, t: Stamp, order: seq<Pair>, req: Request, ranged: seq<Pair>)
    requires Sent(c, o, t, order, req, ranged) && o.bucket == ['p', 'i', 'c', 's'] && o.key == ['%', '4', '1']
    ensures ParseTarget(req.target).Some? && IsBytes(ParseTarget(req.target).value.0)
    ensures forall i | 0 <= i < |ranged| :: PairBytes(ranged[i])
    ensures RebuiltDiffers(c, o, t, order, req, ranged)
  {
    ExampleReadsAsEscaped(o);
    EscapedKeyMismatch(c, o, t, order, req, ranged);
  }

  // ---------------------------------------------------------------- what acceptance means

  /** The hash functions give bytes. */
  ghost predicate ByteHashes(c: Crypto) {
    (forall s :: IsBytes(c.sha256(s))) && forall k, d :: IsBytes(c.hmac(k, d))
  }

  lemma LowerHexRoundTrip(x: int)
    requires 0 <= x < 256
    ensures HexValue(LowerHexDigit(x / 16)) == Some(x / 16) && HexValue(LowerHexDigit(x % 16)) == Some(x % 16)
  {
  }

  lemma HexByteDecodes(x: int, tail: string, rest: string)
    requires 0 <= x < 256 && HexDecode(tail) == Some(rest)
    ensures HexDecode(HexByte(x) + tail) == Some([Byte(x)] + rest)
  {
    LowerHexRoundTrip(x);
    assert (HexByte(x) + tail)[2..] == tail;
  }

  lemma FirstByte(b: string, x: int)
    requires b != "" && x == b[0] as int < 256
    ensures HexEncode(b) == HexByte(x) + HexEncode(b[1..])
  {
    assert x % 256 == x;
  }

  lemma SameChar(c: char, x: int)
    requires x == c as int < 256
    ensures Byte(x) == c
  {
  }

  lemma {:induction false} HexDecodeEncode(b: string)
    requires IsBytes(b)
    ensures HexDecode(HexEncode(b)) == Some(b)
  {
    if b != "" {
      var x, rest := b[0] as int, b[1..];
      HexDecodeEncode(rest);
      FirstByte(b, x);
      HexByteDecodes(x, HexEncode(rest), rest);
      SameChar(b[0], x);
      assert b == [b[0]] + rest;
    }
  }

  lemma HexNormal(s: string)
    requires LowerHex(s)
    ensures Lower(Trim(s)) == s
  {
    TrimNothing(s);
    LowerHexLower(s);
  }

  /** Two hexadecimal signatures match exactly when they stand for the same bytes. */
  lemma SignaturesMatchIff(x: string, y: string)
    requires IsBytes(x) && IsBytes(y)
    ensures SignaturesMatch(HexEncode(x), HexEncode(y)) <==> x == y
  {
    var hx, hy := HexEncode(x), HexEncode(y);
    HexEncodeIsHex(x);
    HexEncodeIsHex(y);
    HexNormal(hx);
    HexNormal(hy);
    HexDecodeEncode(x);
    HexDecodeEncode(y);
  }

  /** Requests with different hashes give different strings to sign. */
  lemma StringsTellHashesApart(c: Crypto, timestamp: string, scope: string, x: string, y: string)
    requires ByteHashes(c) && StringToSign(c, timestamp, scope, x) == StringToSign(c, timestamp, scope, y)
    ensures c.sha256(x) == c.sha256(y)
  {
    var hx, hy := HexEncode(c.sha256(x)), HexEncode(c.sha256(y));
    StringAroundHash(timestamp, scope, hx);
    StringAroundHash(timestamp, scope, hy);
    CancelPrefix("AWS4-HMAC-SHA256" + "\n" + (timestamp + "\n" + (scope + "\n")), hx, hy);
    HexDecodeEncode(c.sha256(x));
    HexDecodeEncode(c.sha256(y));
  }

  lemma StringAroundHash(timestamp: string, scope: string, hash: string)
    ensures Join(["AWS4-HMAC-SHA256", timestamp, scope, hash], "\n") ==
              "AWS4-HMAC-SHA256" + "\n" + (timestamp + "\n" + (scope + "\n")) + hash
  {
    var all := ["AWS4-HMAC-SHA256", timestamp, scope, hash];
    assert all[1..] == [timestamp, scope, hash] && all[1..][1..] == [scope, hash] && all[1..][1..][1..] == [hash];
    assert Join([scope, hash], "\n") == scope + "\n" + hash;
    assert Join([timestamp, scope, hash], "\n") == timestamp + "\n" + (scope + "\n" + hash);
  }

  lemma CheckAcceptsIff(c: Crypto, secretOf: string -> Option<string>, req: Request, path: string, query: seq<Pair>, ranged: seq<Pair>,
                        p: ParsedSig)
    requires IsBytes(path) && forall i | 0 <= i < |ranged| :: PairBytes(ranged[i])
    ensures && (exists x :: x in query && x.key == "X-Amz-Algorithm")
            && ParseQuerySig(query) == Some(p) && secretOf(p.accessKey).Some?
            ==> (CheckSignature(c, secretOf, req, path, query, ranged).Accepted? <==>
                 SignaturesMatch(Sign(c, secretOf(p.accessKey).value, p.date, p.region, p.service,
                                      RebuiltString(c, req, path, query, ranged, p)), p.signature))
  {
  }

  /** What the verifier signs, for the request of a presigned URL. */
  ghost function RebuiltText(c: Crypto, o: PresignOptions, t: Stamp, order: seq<Pair>, req: Request, ranged: seq<Pair>): string
    requires OptionBytes(o) && forall i | 0 <= i < |order| :: PairBytes(order[i])
    requires forall i | 0 <= i < |ranged| :: PairBytes(ranged[i])
    requires ParseTarget(req.target).Some? && IsBytes(ParseTarget(req.target).value.0)
  {
    var (path, raw) := ParseTarget(req.target).value;
    RebuiltString(c, req, path, ParseQuery(raw), ranged, ParsedAs(o, t, SignatureFor(c, o, t, order)))
  }

  /** A presigned URL is accepted exactly when the string the verifier signs and the string that was
      signed have one HMAC. */
  lemma AcceptedIff(c: Crypto, o: PresignOptions, t: Stamp, order: seq<Pair>, req: Request, ranged: seq<Pair>,
                    secretOf: string -> Option<string>)
    requires Sent(c, o, t, order, req, ranged) && ByteHashes(c)
    ensures IsBytes(req.target) && ParseTarget(req.target).Some? && IsBytes(ParseTarget(req.target).value.0)
    ensures forall i | 0 <= i < |ranged| :: PairBytes(ranged[i])
    ensures secretOf(o.accessKey) == Some(o.secret) ==>
              var key := SigningKey(c, o.secret, t.date, RegionOf(o), "s3");
              Verify(c, secretOf, req, ranged).Accepted? <==>
                c.hmac(key, RebuiltText(c, o, t, order, req, ranged)) == c.hmac(key, SignedString(c, o, t, order))
  {
    StringRoundTrip(c, o, t, order, req, ranged);
    if secretOf(o.accessKey) == Some(o.secret) {
      var key := SigningKey(c, o.secret, t.date, RegionOf(o), "s3");
      var (path, raw) := ParseTarget(req.target).value;
      CheckAcceptsIff(c, secretOf, req, path, ParseQuery(raw), ranged, ParsedAs(o, t, SignatureFor(c, o, t, order)));
      SignaturesMatchIff(c.hmac(key, RebuiltText(c, o, t, order, req, ranged)), c.hmac(key, SignedString(c, o, t, order)));
    }
  }

  lemma SameTimeAndScope(c: Crypto, o: PresignOptions, t: Stamp, order: seq<Pair>, req: Request, ranged: seq<Pair>)
    requires Sent(c, o, t, order, req, ranged)
    ensures ParseTarget(req.target).Some? && IsBytes(ParseTarget(req.target).value.0)
    ensures forall i | 0 <= i < |ranged| :: PairBytes(ranged[i])
    ensures var path := ParseTarget(req.target).value.0;
            RebuiltText(c, o, t, order, req, ranged) ==
              StringToSign(c, Timestamp(t), Scope(t.date, RegionOf(o), "s3"),
                           RebuiltRequest(req, path, ranged, ParsedAs(o, t, SignatureFor(c, o, t, order))))
  {
    RequestRoundTripIff(c, o, t, order, req, ranged);
    SentQueryLookups(o, t, order, SignatureFor(c, o, t, order));
    TimestampFound(req, ParseQuery(ParseTarget(req.target).value.1), t);
  }

  /** A presigned URL with an unsafe path is accepted only on a collision: the two canonical requests,
      which differ, have one SHA-256, or the two strings to sign differ and have one HMAC. */
  lemma UnsafeNeedsCollision(c: Crypto, o: PresignOptions, t: Stamp, order: seq<Pair>, req: Request, ranged: seq<Pair>,
                             secretOf: string -> Option<string>)
    requires Sent(c, o, t, order, req, ranged) && ByteHashes(c)
    ensures IsBytes(req.target) && ParseTarget(req.target).Some? && IsBytes(ParseTarget(req.target).value.0)
    ensures forall i | 0 <= i < |ranged| :: PairBytes(ranged[i])
    ensures !PathSafe(o) && secretOf(o.accessKey) == Some(o.secret) && Verify(c, secretOf, req, ranged).Accepted? ==>
              var key := SigningKey(c, o.secret, t.date, RegionOf(o), "s3");
              var rebuilt := RebuiltRequest(req, ParseTarget(req.target).value.0, ranged, ParsedAs(o, t, SignatureFor(c, o, t, order)));
              var text := RebuiltText(c, o, t, order, req, ranged);
              && rebuilt != SignedRequest(o, order)
              && (|| c.sha256(rebuilt) == c.sha256(SignedRequest(o, order))
                  || (text != SignedString(c, o, t, order) && c.hmac(key, text) == c.hmac(key, SignedString(c, o, t, order))))
  {
    RequestRoundTripIff(c, o, t, order, req, ranged);
    AcceptedIff(c, o, t, order, req, ranged, secretOf);
    SameTimeAndScope(c, o, t, order, req, ranged);
    var rebuilt := RebuiltRequest(req, ParseTarget(req.target).value.0, ranged, ParsedAs(o, t, SignatureFor(c, o, t, order)));
    if RebuiltText(c, o, t, order, req, ranged) == SignedString(c, o, t, order) {
      StringsTellHashesApart(c, Timestamp(t), Scope(t.date, RegionOf(o), "s3"), rebuilt, SignedRequest(o, order));
    }
  }

  // ---------------------------------------------------------------- what a signature binds

  /** The canonical request in lines: method, path, query, header, an empty line, signed headers, payload. */
  lemma RequestLines(verb: string, uri: string, query: string, header: string, signed: string, payload: string)
    requires '\n' !in verb && '\n' !in uri && '\n' !in query && '\n' !in header && '\n' !in signed && '\n' !in payload
    ensures Split(CanonicalRequest(verb, uri, query, header + "\n", signed, payload), '\n') ==
              [verb, uri, query, header, "", signed, payload]
  {
    var lines := [verb, uri, query, header, "", signed, payload];
    var x, y := [header, "", signed, payload], [header + "\n", signed, payload];
    BlockEnds(header, signed, payload);
    JoinSame(verb, uri, query, x, y);
    assert [verb, uri, query] + x == lines;
    assert [verb, uri, query] + y == [verb, uri, query, header + "\n", signed, payload];
    SplitJoin(lines, '\n');
  }

  lemma BlockEnds(header: string, signed: string, payload: string)
    ensures Join([header, "", signed, payload], "\n") == Join([header + "\n", signed, payload], "\n")
  {
    var rest := [signed, payload];
    JoinFirst("", rest, "\n");
    JoinFirst(header, [""] + rest, "\n");
    JoinFirst(header + "\n", rest, "\n");
    assert [header] + ([""] + rest) == [header, "", signed, payload] && [header + "\n"] + rest == [header + "\n", signed, payload];
    assert header + "\n" + ("" + "\n" + Join(rest, "\n")) == header + "\n" + "\n" + Join(rest, "\n");
  }

  lemma JoinSame(a: string, b: string, c: string, x: seq<string>, y: seq<string>)
    requires x != [] && y != [] && Join(x, "\n") == Join(y, "\n")
    ensures Join([a, b, c] + x, "\n") == Join([a, b, c] + y, "\n")
  {
    JoinFirst(c, x, "\n");
    JoinFirst(c, y, "\n");
    JoinFirst(b, [c] + x, "\n");
    JoinFirst(b, [c] + y, "\n");
    JoinFirst(a, [b] + ([c] + x), "\n");
    JoinFirst(a, [b] + ([c] + y), "\n");
    assert [a, b, c] + x == [a] + ([b] + ([c] + x)) && [a, b, c] + y == [a] + ([b] + ([c] + y));
  }

  lemma JoinFirst(a: string, x: seq<string>, sep: string)
    requires x != []
    ensures Join([a] + x, sep) == a + sep + Join(x, sep)
  {
    assert ([a] + x)[1..] == x;
  }

  lemma ScopeForm(date: string, region: string, service: string, end: string)
    requires end == "aws4_request"
    ensures Scope(date, region, service) == date + "/" + region + "/" + service + "/" + end && '/' !in end
  {
    assert "/" + end == "/aws4_request";
  }

  lemma SplitFour(a: string, b: string, c: string, end: string)
    requires '/' !in a && '/' !in b && '/' !in c && '/' !in end
    ensures Split(a + "/" + b + "/" + c + "/" + end, '/') == [a, b, c, end]
  {
    SplitNone(end, '/');
    SplitThree(a, b, c, end);
    Nested(a, b, c, end);
    assert [a] + ([b] + ([c] + [end])) == [a, b, c, end];
  }

  /** The scope in parts: date, region, service and a fixed end. */
  lemma ScopeParts(date: string, region: string, service: string, end: string)
    requires '/' !in date && '/' !in region && '/' !in service && end == "aws4_request"
    ensures Split(Scope(date, region, service), '/') == [date, region, service, end]
  {
    ScopeForm(date, region, service, end);
    SplitFour(date, region, service, end);
  }

  /** The hash functions give 32 bytes. */
  ghost predicate Hashes32(c: Crypto) {
    ByteHashes(c) && FixedLength(c) && forall s :: |c.sha256(s)| == 32
  }

  /** Two different key and message pairs with one HMAC. */
  ghost predicate HmacCollision(c: Crypto, k: string, m: string, k': string, m': string) {
    (k, m) != (k', m') && c.hmac(k, m) == c.hmac(k', m')
  }

  /** Two signing keys are equal only for one secret, date, region and service, or on a collision in the
      chain that derives them: secret with date, then region, then service, then the fixed end. */
  lemma SigningKeyBinds(c: Crypto, secret: string, date: string, region: string, service: string,
                        secret': string, date': string, region': string, service': string)
    requires SigningKey(c, secret, date, region, service) == SigningKey(c, secret', date', region', service')
    ensures var d, d' := c.hmac("AWS4" + secret, date), c.hmac("AWS4" + secret', date');
            var r, r' := c.hmac(d, region), c.hmac(d', region');
            var s, s' := c.hmac(r, service), c.hmac(r', service');
            || (secret == secret' && date == date' && region == region' && service == service')
            || HmacCollision(c, "AWS4" + secret, date, "AWS4" + secret', date')
            || HmacCollision(c, d, region, d', region')
            || HmacCollision(c, r, service, r', service')
            || HmacCollision(c, s, "aws4_request", s', "aws4_request")
  {
    CancelPrefix("AWS4", secret, secret');
  }

  /** Under one scope, strings to sign are equal only for one timestamp and one request hash. */
  lemma StringBinds(c: Crypto, timestamp: string, timestamp': string, scope: string, x: string, y: string)
    requires Hashes32(c) && StringToSign(c, timestamp, scope, x) == StringToSign(c, timestamp', scope, y)
    ensures timestamp == timestamp' && c.sha256(x) == c.sha256(y)
  {
    var hx, hy := HexEncode(c.sha256(x)), HexEncode(c.sha256(y));
    HexEncodeIsHex(c.sha256(x));
    HexEncodeIsHex(c.sha256(y));
    StringAroundTime(timestamp, scope, hx);
    StringAroundTime(timestamp', scope, hy);
    TimeAndHash("AWS4-HMAC-SHA256" + "\n", timestamp, timestamp', "\n" + scope + "\n", hx, hy);
    HexDecodeEncode(c.sha256(x));
    HexDecodeEncode(c.sha256(y));
  }

  lemma StringAroundTime(timestamp: string, scope: string, hash: string)
    ensures Join(["AWS4-HMAC-SHA256", timestamp, scope, hash], "\n") ==
              "AWS4-HMAC-SHA256" + "\n" + (timestamp + ("\n" + scope + "\n" + hash))
  {
    StringAroundHash(timestamp, scope, hash);
    assert "AWS4-HMAC-SHA256" + "\n" + (timestamp + "\n" + (scope + "\n")) + hash ==
           "AWS4-HMAC-SHA256" + "\n" + (timestamp + ("\n" + scope + "\n" + hash));
  }

  lemma TimeAndHash(a: string, t: string, t': string, m: string, h: string, h': string)
    requires a + (t + (m + h)) == a + (t' + (m + h')) && |h| == |h'|
    ensures t == t' && h == h'
  {
    CancelPrefix(a, t + (m + h), t' + (m + h'));
    assert |t| == |t'|;
    assert (t + (m + h))[..|t|] == t && (t' + (m + h'))[..|t'|] == t';
    CancelPrefix(t, m + h, m + h');
    CancelPrefix(m, h, h');
  }

  lemma AcceptedParses(c: Crypto, secretOf: string -> Option<string>, req: Request, path: string, query: seq<Pair>, ranged: seq<Pair>)
    requires IsBytes(path) && forall i | 0 <= i < |ranged| :: PairBytes(ranged[i])
    ensures CheckSignature(c, secretOf, req, path, query, ranged).Accepted? ==>
              && ParseQuerySig(query).Some?
              && var p := ParseQuerySig(query).value;
                 && secretOf(p.accessKey).Some?
                 && SignaturesMatch(Sign(c, secretOf(p.accessKey).value, p.date, p.region, p.service,
                                         RebuiltString(c, req, path, query, ranged, p)), p.signature)
  {
  }

  /** The request says what was signed: the same date, region, service and time, and a canonical request
      with the signed one's hash. */
  ghost predicate SaysWhatWasSigned(c: Crypto, o: PresignOptions, t: Stamp, order: seq<Pair>,
                                    req: Request, path: string, query: seq<Pair>, ranged: seq<Pair>, p: ParsedSig)
    requires OptionBytes(o) && (forall i | 0 <= i < |order| :: PairBytes(order[i]))
    requires IsBytes(path) && forall i | 0 <= i < |ranged| :: PairBytes(ranged[i])
  {
    && p.date == t.date && p.region == RegionOf(o) && p.service == "s3"
    && RequestTimestamp(req, query, p.date) == Timestamp(t)
    && c.sha256(RebuiltRequest(req, path, ranged, p)) == c.sha256(SignedRequest(o, order))
  }

  /** A signature made for one URL is accepted only on a request that says what was signed, under the same
      secret, unless two HMACs collide: a changed date, region, service, time or canonical request is
      refused. */
  lemma AcceptedSaysWhatWasSigned(c: Crypto, o: PresignOptions, t: Stamp, order: seq<Pair>, secretOf: string -> Option<string>,
                                  req: Request, path: string, query: seq<Pair>, ranged: seq<Pair>, p: ParsedSig)
    requires Hashes32(c) && OptionBytes(o) && (forall i | 0 <= i < |order| :: PairBytes(order[i]))
    requires IsBytes(path) && forall i | 0 <= i < |ranged| :: PairBytes(ranged[i])
    ensures ParseQuerySig(query) == Some(p) && p.signature == SignatureFor(c, o, t, order)
            && CheckSignature(c, secretOf, req, path, query, ranged).Accepted? ==>
              secretOf(p.accessKey).Some? && SignedOrCollides(c, o, t, order, secretOf(p.accessKey).value, req, path, query, ranged, p)
  {
    if ParseQuerySig(query) == Some(p) && p.signature == SignatureFor(c, o, t, order)
       && CheckSignature(c, secretOf, req, path, query, ranged).Accepted? {
      AcceptedParses(c, secretOf, req, path, query, ranged);
      SameHmacIsSigned(c, o, t, order, secretOf(p.accessKey).value, req, path, query, ranged, p);
    }
  }

  /** The request says what was signed under the same secret, or one of these HMACs collides. */
  ghost predicate SignedOrCollides(c: Crypto, o: PresignOptions, t: Stamp, order: seq<Pair>, secret: string,
                                   req: Request, path: string, query: seq<Pair>, ranged: seq<Pair>, p: ParsedSig)
    requires OptionBytes(o) && (forall i | 0 <= i < |order| :: PairBytes(order[i]))
    requires IsBytes(path) && forall i | 0 <= i < |ranged| :: PairBytes(ranged[i])
  {
    var key, key' := SigningKey(c, secret, p.date, p.region, p.service), SigningKey(c, o.secret, t.date, RegionOf(o), "s3");
    var d, d' := c.hmac("AWS4" + secret, p.date), c.hmac("AWS4" + o.secret, t.date);
    var r, r' := c.hmac(d, p.region), c.hmac(d', RegionOf(o));
    var s, s' := c.hmac(r, p.service), c.hmac(r', "s3");
    || (secret == o.secret && SaysWhatWasSigned(c, o, t, order, req, path, query, ranged, p))
    || HmacCollision(c, key, RebuiltString(c, req, path, query, ranged, p), key', SignedString(c, o, t, order))
    || HmacCollision(c, "AWS4" + secret, p.date, "AWS4" + o.secret, t.date)
    || HmacCollision(c, d, p.region, d', RegionOf(o))
    || HmacCollision(c, r, p.service, r', "s3")
    || HmacCollision(c, s, "aws4_request", s', "aws4_request")
  }

  lemma SameHmacIsSigned(c: Crypto, o: PresignOptions, t: Stamp, order: seq<Pair>, secret: string,
                         req: Request, path: string, query: seq<Pair>, ranged: seq<Pair>, p: ParsedSig)
    requires Hashes32(c) && OptionBytes(o) && (forall i | 0 <= i < |order| :: PairBytes(order[i]))
    requires IsBytes(path) && forall i | 0 <= i < |ranged| :: PairBytes(ranged[i])
    ensures SignaturesMatch(Sign(c, secret, p.date, p.region, p.service, RebuiltString(c, req, path, query, ranged, p)),
                            SignatureFor(c, o, t, order)) ==>
              SignedOrCollides(c, o, t, order, secret, req, path, query, ranged, p)
  {
    var key, key' := SigningKey(c, secret, p.date, p.region, p.service), SigningKey(c, o.secret, t.date, RegionOf(o), "s3");
    var text, text' := RebuiltString(c, req, path, query, ranged, p), SignedString(c, o, t, order);
    SignaturesMatchIff(c.hmac(key, text), c.hmac(key', text'));
    if key == key' && text == text' {
      SigningKeyBinds(c, secret, p.date, p.region, p.service, o.secret, t.date, RegionOf(o), "s3");
      if p.date == t.date && p.region == RegionOf(o) && p.service == "s3" {
        StringBinds(c, RequestTimestamp(req, query, p.date), Timestamp(t), Scope(p.date, p.region, p.service),
                    RebuiltRequest(req, path, ranged, p), SignedRequest(o, order));
      }
    }
  }
}
