/** The path part of a SigV4 canonical request: CanonicalURI of internal/auth/canonical.go against
    the path that internal/auth/presign.go signs. */
module CanonicalUri {
  import opened Basics
  import opened UriEncoding

  // ---------------------------------------------------------------- splitting and joining

  /** The first place of `c`, or the length. */
  function Find(s: string, c: char): (i: nat)
    ensures i <= |s| && c !in s[..i] && (i < |s| ==> s[i] == c)
  {
    if s == "" || s[0] == c then 0 else Find(s[1..], c) + 1
  }

  function Split(s: string, c: char): (parts: seq<string>)
    ensures |parts| >= 1
    decreases |s|
  {
    var i := Find(s, c);
    if i == |s| then [s] else [s[..i]] + Split(s[i + 1..], c)
  }

  function Join(parts: seq<string>, sep: string): string {
    if parts == [] then ""
    else if |parts| == 1 then parts[0]
    else parts[0] + sep + Join(parts[1..], sep)
  }

  lemma {:induction false} FindFirst(a: string, c: char, b: string)
    requires c !in a
    ensures Find(a + [c] + b, c) == |a|
  {
    if a != "" {
      assert a[0] in a;
      assert (a + [c] + b)[1..] == a[1..] + [c] + b;
      FindFirst(a[1..], c, b);
    }
  }

  lemma SplitFirst(a: string, c: char, b: string)
    requires c !in a
    ensures Split(a + [c] + b, c) == [a] + Split(b, c)
  {
    FindFirst(a, c, b);
    assert (a + [c] + b)[..|a|] == a && (a + [c] + b)[|a| + 1..] == b;
  }

  lemma SplitNone(a: string, c: char)
    requires c !in a
    ensures Split(a, c) == [a]
  {
    assert a[..|a|] == a;
  }

  /** Splitting undoes joining when no part holds the separator. */
  lemma {:induction false} SplitJoin(parts: seq<string>, c: char)
    requires parts != [] && forall i | 0 <= i < |parts| :: c !in parts[i]
    ensures Split(Join(parts, [c]), c) == parts
  {
    if |parts| == 1 {
      SplitNone(parts[0], c);
    } else {
      SplitFirst(parts[0], c, Join(parts[1..], [c]));
      SplitJoin(parts[1..], c);
      assert parts == [parts[0]] + parts[1..];
    }
  }

  // ---------------------------------------------------------------- encoding segment by segment

  predicate AllBytes(parts: seq<string>) {
    forall i | 0 <= i < |parts| :: IsBytes(parts[i])
  }

  function EncodeEach(parts: seq<string>): seq<string>
    requires AllBytes(parts)
  {
    if parts == [] then [] else [Encode(parts[0])] + EncodeEach(parts[1..])
  }

  lemma {:induction false} SplitBytes(s: string, c: char)
    requires IsBytes(s)
    ensures AllBytes(Split(s, c))
    decreases |s|
  {
    var i := Find(s, c);
    if i < |s| {
      SplitBytes(s[i + 1..], c);
    }
  }

  lemma {:induction false} ToValidHas(s: string, c: char)
    requires c as int < 0x80
    ensures c in ToValid(s) <==> c in s
  {
    if s != "" {
      var w := DecodeRune(s).1;
      ToValidHas(s[w..], c);
      assert s == s[..w] + s[w..];
      HeadHas(s, c);
    }
  }

  lemma HeadHas(s: string, c: char)
    requires s != "" && c as int < 0x80
    ensures c in Head(s) <==> c in s[..DecodeRune(s).1]
  {
    assert s[0] in s[..DecodeRune(s).1];
    assert forall i | 0 <= i < 3 :: REPLACEMENT[i] as int >= 0x80;
    if Width(s) == 0 {
      assert s[..1] == [s[0]];
    }
  }

  lemma {:induction false} EscapeNoSlash(s: string)
    requires IsBytes(s)
    ensures |Escape(s, true)| <= |Escape(s, false)|
    ensures '/' !in s ==> Escape(s, true) == Escape(s, false)
    ensures '/' in s ==> |Escape(s, true)| < |Escape(s, false)|
  {
    if s != "" {
      EscapeNoSlash(s[1..]);
      assert s == [s[0]] + s[1..];
    }
  }

  function SegmentsEncoded(s: string): string
    requires IsBytes(s)
  {
    SplitBytes(s, '/');
    Join(EncodeEach(Split(s, '/')), "/")
  }

  function PathEscape(s: string): string
    requires IsBytes(s)
  {
    ToValidBytes(s);
    Escape(ToValid(s), true)
  }

  lemma EscapeAround(x: string, y: string)
    requires IsBytes(x) && IsBytes(y)
    ensures Escape(x + "/" + y, true) == Escape(x, true) + "/" + Escape(y, true)
  {
    EscapeConcat(x + "/", y, true);
    EscapeConcat(x, "/", true);
    EscapeSlash("/");
  }

  lemma EscapeSlash(s: string)
    requires s == ['/']
    ensures Escape(s, true) == s
  {
    assert s[1..] == "";
  }

  lemma PathEscapeAround(a: string, b: string)
    requires IsBytes(a) && IsBytes(b)
    ensures PathEscape(a + "/" + b) == PathEscape(a) + "/" + PathEscape(b)
  {
    ToValidAround(a, '/', b);
    ToValidBytes(a);
    ToValidBytes(b);
    EscapeAround(ToValid(a), ToValid(b));
  }

  lemma SegmentIsPath(first: string)
    requires IsBytes(first) && '/' !in first
    ensures Encode(first) == PathEscape(first)
  {
    ToValidBytes(first);
    ToValidHas(first, '/');
    EscapeNoSlash(ToValid(first));
  }

  lemma SegmentsNone(s: string)
    requires IsBytes(s) && '/' !in s
    ensures SegmentsEncoded(s) == Encode(s)
  {
    SplitNone(s, '/');
    assert EncodeEach([s]) == [Encode(s)];
  }

  lemma SegmentsStep(first: string, rest: string)
    requires IsBytes(first) && IsBytes(rest) && '/' !in first
    ensures SegmentsEncoded(first + "/" + rest) == Encode(first) + "/" + SegmentsEncoded(rest)
  {
    SplitFirst(first, '/', rest);
    SplitBytes(rest, '/');
    var parts := Split(rest, '/');
    assert ([first] + parts)[1..] == parts;
    assert EncodeEach([first] + parts) == [Encode(first)] + EncodeEach(parts);
    EachNonEmpty(parts);
    JoinCons(Encode(first), EncodeEach(parts));
  }

  /** Encoding the segments one by one is encoding the path and leaving its slashes alone. */
  lemma {:induction false} SegmentsArePath(s: string)
    requires IsBytes(s)
    ensures SegmentsEncoded(s) == PathEscape(s)
    decreases |s|
  {
    var i := Find(s, '/');
    var first := s[..i];
    SegmentIsPath(first);
    if i == |s| {
      assert first == s;
      SegmentsNone(s);
    } else {
      var rest := s[i + 1..];
      assert s == first + "/" + rest;
      SegmentsArePath(rest);
      SegmentsStep(first, rest);
      PathEscapeAround(first, rest);
    }
  }

  lemma EachNonEmpty(parts: seq<string>)
    requires AllBytes(parts) && parts != []
    ensures EncodeEach(parts) != []
  {
  }

  lemma JoinCons(x: string, parts: seq<string>)
    ensures parts != [] ==> Join([x] + parts, "/") == x + "/" + Join(parts, "/")
  {
    assert ([x] + parts)[1..] == parts;
  }

  // ---------------------------------------------------------------- the two sides

  /** The verifier: one more unescape of an already unescaped path, then segment by segment. */
  function CanonicalPath(path: string): string
    requires IsBytes(path)
  {
    var decoded := Unescape(path, false);
    UnescapeBytes(path, false);
    var p := if decoded.None? then path else decoded.value;
    SegmentsEncoded(if p == "" then "/" else p)
  }

  lemma {:induction false} UnescapeBytes(s: string, plus: bool)
    requires IsBytes(s)
    ensures Unescape(s, plus).Some? ==> IsBytes(Unescape(s, plus).value)
  {
    if s != "" {
      if s[0] != '%' {
        UnescapeBytes(s[1..], plus);
      } else if |s| >= 3 {
        UnescapeBytes(s[3..], plus);
      }
    }
  }

  function ObjectPath(bucket: string, key: string): string {
    "/" + bucket + if key == "" then "" else "/" + key
  }

  /** The signer: the bucket is one segment, the key is split. */
  function SignedPath(bucket: string, key: string): string
    requires IsBytes(bucket) && IsBytes(key)
  {
    "/" + Encode(bucket) + if key == "" then "" else "/" + SegmentsEncoded(key)
  }

  method CanonicalURI(path: string) returns (uri: string)
    requires IsBytes(path)
    ensures uri == CanonicalPath(path)
  {
    var u := Unescape(path, false);
    UnescapeBytes(path, false);
    var decoded := if u.None? then path else u.value;
    if decoded == "" {
      decoded := "/";
    }
    SplitBytes(decoded, '/');
    var segments := Split(decoded, '/');
    var encoded := EncodeSegments(segments);
    uri := Join(encoded, "/");
  }

  lemma EachFirst(segments: seq<string>, i: nat)
    requires AllBytes(segments) && i < |segments|
    ensures EncodeEach(segments[i..]) == [Encode(segments[i])] + EncodeEach(segments[i + 1..])
  {
    assert segments[i..][1..] == segments[i + 1..];
  }

  method EncodeSegments(segments: seq<string>) returns (encoded: seq<string>)
    requires AllBytes(segments)
    ensures encoded == EncodeEach(segments)
  {
    encoded := [];
    for i := 0 to |segments|
      invariant encoded + EncodeEach(segments[i..]) == EncodeEach(segments)
    {
      var e := UriEncodeStrict(segments[i]);
      EachFirst(segments, i);
      encoded := encoded + [e];
    }
  }

  /** The loop that signs the path. */
  method SignPath(bucket: string, key: string) returns (uri: string)
    requires IsBytes(bucket) && IsBytes(key)
    ensures uri == SignedPath(bucket, key)
  {
    var b := UriEncodeStrict(bucket);
    uri := "/" + b;
    if key != "" {
      SplitBytes(key, '/');
      uri := AppendSegments(uri, Split(key, '/'));
      EachNonEmpty(Split(key, '/'));
      SlashedIsJoin(EncodeEach(Split(key, '/')));
    }
  }

  method AppendSegments(start: string, segments: seq<string>) returns (uri: string)
    requires AllBytes(segments)
    ensures uri == start + Slashed(EncodeEach(segments))
  {
    uri := start;
    for i := 0 to |segments|
      invariant uri == start + Slashed(EncodeEach(segments[..i]))
    {
      var e := UriEncodeStrict(segments[i]);
      SlashedNext(segments, i);
      Append(start, Slashed(EncodeEach(segments[..i])), "/" + e);
      uri := uri + ("/" + e);
    }
    assert segments[..|segments|] == segments;
  }

  /** Each part with a slash before it. */
  function Slashed(parts: seq<string>): string {
    if parts == [] then "" else "/" + parts[0] + Slashed(parts[1..])
  }

  lemma {:induction false} SlashedIsJoin(parts: seq<string>)
    requires parts != []
    ensures Slashed(parts) == "/" + Join(parts, "/")
  {
    if |parts| > 1 { SlashedIsJoin(parts[1..]); }
  }

  lemma {:induction false} SlashedConcat(a: seq<string>, b: seq<string>)
    ensures Slashed(a + b) == Slashed(a) + Slashed(b)
  {
    if a == [] {
      assert a + b == b;
    } else {
      assert (a + b)[1..] == a[1..] + b;
      SlashedConcat(a[1..], b);
    }
  }

  lemma {:induction false} EachConcat(a: seq<string>, b: seq<string>)
    requires AllBytes(a) && AllBytes(b)
    ensures EncodeEach(a + b) == EncodeEach(a) + EncodeEach(b)
  {
    if a == [] {
      assert a + b == b;
    } else {
      assert (a + b)[1..] == a[1..] + b;
      EachConcat(a[1..], b);
    }
  }

  lemma SlashedNext(segments: seq<string>, i: nat)
    requires AllBytes(segments) && i < |segments|
    ensures Slashed(EncodeEach(segments[..i + 1])) == Slashed(EncodeEach(segments[..i])) + ("/" + Encode(segments[i]))
  {
    var one := [segments[i]];
    assert segments[..i + 1] == segments[..i] + one;
    EachConcat(segments[..i], one);
    assert EncodeEach(one) == [Encode(segments[i])];
    SlashedConcat(EncodeEach(segments[..i]), [Encode(segments[i])]);
    assert Slashed([Encode(segments[i])]) == "/" + Encode(segments[i]);
  }

  // ---------------------------------------------------------------- when the two sides agree

  /** The character a path starts with once unescaped, and how much of the path it takes. */
  function FirstChar(s: string): Option<char>
    requires s != ""
  {
    if s[0] != '%' then Some(s[0])
    else if |s| < 3 || HexValue(s[1]).None? || HexValue(s[2]).None? then None
    else Some(Byte(HexValue(s[1]).value * 16 + HexValue(s[2]).value))
  }

  function FirstTaken(s: string): (n: nat)
    requires s != "" && FirstChar(s).Some?
    ensures 1 <= n <= |s|
  {
    if s[0] == '%' then 3 else 1
  }

  lemma UnescapeUnfold(s: string, x: string)
    requires s != ""
    ensures Unescape(s, false) == Some(x) <==>
              && FirstChar(s).Some? && x != "" && x[0] == FirstChar(s).value
              && Unescape(s[FirstTaken(s)..], false) == Some(x[1..])
  {
    assert x != "" ==> x == [x[0]] + x[1..];
  }

  lemma FirstStable(a: string, b: string)
    requires a != "" && FirstChar(a).Some?
    ensures FirstChar(a + b) == FirstChar(a) && FirstTaken(a + b) == FirstTaken(a)
    ensures (a + b)[FirstTaken(a)..] == a[FirstTaken(a)..] + b
  {
  }

  lemma {:induction false} UnescapeConcat(a: string, b: string, x: string, y: string)
    requires Unescape(a, false) == Some(x) && Unescape(b, false) == Some(y)
    ensures Unescape(a + b, false) == Some(x + y)
  {
    if a == "" {
      assert a + b == b && x + y == y;
    } else {
      UnescapeUnfold(a, x);
      var n := FirstTaken(a);
      UnescapeConcat(a[n..], b, x[1..], y);
      FirstStable(a, b);
      assert (x + y)[1..] == x[1..] + y;
      UnescapeUnfold(a + b, x + y);
    }
  }

  lemma UnescapeSlash(s: string, x: string)
    requires Unescape(s, false) == Some(x)
    ensures Unescape("/" + s, false) == Some("/" + x)
  {
    assert ("/" + s)[1..] == s;
  }

  lemma KeyPathDecodes(key: string)
    requires IsBytes(key)
    ensures Unescape("/" + SegmentsEncoded(key), false) == Some("/" + ToValid(key))
  {
    SegmentsArePath(key);
    ToValidBytes(key);
    UnescapeEscape(ToValid(key), true, false);
    UnescapeSlash(PathEscape(key), ToValid(key));
  }

  lemma ObjectPathValid(bucket: string, key: string)
    ensures ToValid(ObjectPath(bucket, key)) == "/" + ToValid(bucket) + if key == "" then "" else "/" + ToValid(key)
  {
    ObjectPathSplit(bucket, key);
    ToValidHead('/', bucket);
    if key == "" {
      Trailing("/" + ToValid(bucket));
    } else {
      ToValidAround("/" + bucket, '/', key);
      Append("/" + ToValid(bucket), "/", ToValid(key));
    }
  }

  lemma Trailing(a: string)
    ensures a + "" == a
  {
  }

  lemma ObjectPathSplit(bucket: string, key: string)
    ensures ObjectPath(bucket, key) == if key == "" then "/" + bucket else "/" + bucket + "/" + key
  {
  }

  /** The path the server sees is the object's path, as UTF-8. */
  lemma SignedPathDecodes(bucket: string, key: string)
    requires IsBytes(bucket) && IsBytes(key)
    ensures Unescape(SignedPath(bucket, key), false) == Some(ToValid(ObjectPath(bucket, key)))
  {
    DecodeEncodeIff(bucket, false);
    UnescapeSlash(Encode(bucket), ToValid(bucket));
    ObjectPathValid(bucket, key);
    if key == "" {
      assert SignedPath(bucket, key) == "/" + Encode(bucket);
      Trailing("/" + ToValid(bucket));
    } else {
      KeyPathDecodes(key);
      UnescapeConcat("/" + Encode(bucket), "/" + SegmentsEncoded(key), "/" + ToValid(bucket), "/" + ToValid(key));
    }
  }

  // An escape is three ASCII characters that stand for at most one, while replacing ill-formed
  // bytes leaves ASCII alone: so a path that its own unescaping decodes to has no escapes.

  function AsciiCount(s: string): nat {
    if s == "" then 0 else (if s[0] as int < 0x80 then 1 else 0) + AsciiCount(s[1..])
  }

  lemma {:induction false} AsciiConcat(a: string, b: string)
    ensures AsciiCount(a + b) == AsciiCount(a) + AsciiCount(b)
  {
    if a == "" {
      assert a + b == b;
    } else {
      assert (a + b)[1..] == a[1..] + b;
      AsciiConcat(a[1..], b);
    }
  }

  lemma {:induction false} NoAscii(s: string)
    requires forall i | 0 <= i < |s| :: s[i] as int >= 0x80
    ensures AsciiCount(s) == 0
  {
    if s != "" { NoAscii(s[1..]); }
  }

  lemma HeadAscii(s: string)
    requires s != ""
    ensures AsciiCount(Head(s)) == AsciiCount(s[..DecodeRune(s).1])
  {
    var taken := s[..DecodeRune(s).1];
    if Width(s) != 1 {
      NoAscii(REPLACEMENT);
      NoAscii(taken);
      NoAscii(Head(s));
    }
  }

  lemma {:induction false} ToValidAscii(s: string)
    ensures AsciiCount(ToValid(s)) == AsciiCount(s)
  {
    if s != "" {
      var w := DecodeRune(s).1;
      HeadAscii(s);
      ToValidAscii(s[w..]);
      ToValidUnfold(s, w, s[w..]);
      AsciiConcat(Head(s), ToValid(s[w..]));
      AsciiConcat(s[..w], s[w..]);
      assert s == s[..w] + s[w..];
    }
  }

  lemma AsciiFirst(s: string)
    requires s != ""
    ensures AsciiCount(s) == (if s[0] as int < 0x80 then 1 else 0) + AsciiCount(s[1..])
  {
  }

  lemma AsciiEscape(p: string)
    requires |p| >= 3 && p[0] == '%' && HexValue(p[1]).Some? && HexValue(p[2]).Some?
    ensures AsciiCount(p) == 3 + AsciiCount(p[3..])
  {
    AsciiFirst(p);
    AsciiFirst(p[1..]);
    AsciiFirst(p[2..]);
    assert p[1..][1..] == p[2..] && p[2..][1..] == p[3..];
  }

  lemma {:induction false} UnescapeAscii(p: string, q: string)
    requires Unescape(p, false) == Some(q)
    ensures AsciiCount(q) <= AsciiCount(p)
    ensures '%' in p ==> AsciiCount(q) < AsciiCount(p)
  {
    if p != "" {
      UnescapeUnfold(p, q);
      AsciiFirst(q);
      UnescapeAscii(p[FirstTaken(p)..], q[1..]);
      if p[0] == '%' {
        AsciiEscape(p);
      } else {
        AsciiFirst(p);
        assert p == [p[0]] + p[1..];
      }
    }
  }

  lemma NoEscapesLeft(p: string, q: string)
    requires Unescape(p, false) == Some(q) && ToValid(q) == p
    ensures '%' !in p
  {
    ToValidAscii(q);
    UnescapeAscii(p, q);
  }

  lemma WidthOfHead(s: string, rest: string)
    requires s != ""
    ensures var h := Head(s); h + rest != "" && Width(h + rest) == |h| > 0
  {
    var w := Width(s);
    if w > 0 {
      assert forall i | 0 <= i < w :: (Head(s) + rest)[i] == s[i];
    }
  }

  lemma {:induction false} ToValidIdempotent(s: string)
    ensures ValidUtf8(ToValid(s)) && ToValid(ToValid(s)) == ToValid(s)
  {
    if s != "" {
      var w := DecodeRune(s).1;
      var rest := ToValid(s[w..]);
      ToValidIdempotent(s[w..]);
      ToValidUnfold(s, w, s[w..]);
      WidthOfHead(s, rest);
      assert (Head(s) + rest)[|Head(s)|..] == rest;
    }
    ToValidIff(ToValid(s));
  }

  lemma DecodedIsPath(p: string)
    requires IsBytes(p) && p != "" && ToValid(p) == p && ('%' !in p || Unescape(p, false).None?)
    ensures CanonicalPath(p) == Escape(p, true)
  {
    if '%' !in p { UnescapePlain(p); }
    SegmentsArePath(p);
  }

  /** If the verifier's path is an encoding of the path it was given, that path has no escapes. */
  lemma SamePathHasNoEscapes(p: string)
    requires IsBytes(p) && p != "" && Unescape(CanonicalPath(p), false) == Some(p)
    ensures '%' !in p || Unescape(p, false).None?
  {
    var u := Unescape(p, false);
    UnescapeBytes(p, false);
    if u.Some? {
      assert u.value != "" by { UnescapeUnfold(p, u.value); }
      SegmentsArePath(u.value);
      ToValidBytes(u.value);
      UnescapeEscape(ToValid(u.value), true, false);
      NoEscapesLeft(p, u.value);
    }
  }

  function KeyTail(key: string): string
    requires IsBytes(key)
  {
    if key == "" then "" else "/" + PathEscape(key)
  }

  lemma SignedPathForm(bucket: string, key: string)
    requires IsBytes(bucket) && IsBytes(key)
    ensures SignedPath(bucket, key) == "/" + Encode(bucket) + KeyTail(key)
  {
    SegmentsArePath(key);
  }

  lemma BucketPathForm(bucket: string)
    requires IsBytes(bucket)
    ensures PathEscape("/" + bucket) == "/" + PathEscape(bucket)
  {
    PathEscapeAround("", bucket);
    assert "" + "/" + bucket == "/" + bucket;
    assert PathEscape("") == "";
    assert "" + "/" + PathEscape(bucket) == "/" + PathEscape(bucket);
  }

  lemma ObjectPathForm(bucket: string, key: string)
    requires IsBytes(bucket) && IsBytes(key)
    ensures PathEscape(ObjectPath(bucket, key)) == "/" + PathEscape(bucket) + KeyTail(key)
  {
    BucketPathForm(bucket);
    ObjectPathSplit(bucket, key);
    if key != "" {
      PathEscapeAround("/" + bucket, key);
      Append("/" + PathEscape(bucket), "/", PathEscape(key));
    }
  }

  /** For every bucket and key, the verifier rebuilds the signed path exactly when the bucket has no
      slash and the object's path has no percent sign or is not itself a well-formed escaped path. */
  lemma PathRoundTripIff(bucket: string, key: string)
    requires IsBytes(bucket) && IsBytes(key)
    ensures var path := ToValid(ObjectPath(bucket, key));
            && Unescape(SignedPath(bucket, key), false) == Some(path) && IsBytes(path)
            && (CanonicalPath(path) == SignedPath(bucket, key) <==>
                '/' !in bucket && ('%' !in path || Unescape(path, false).None?))
  {
    var path := ToValid(ObjectPath(bucket, key));
    SignedPathDecodes(bucket, key);
    SignedPathForm(bucket, key);
    ObjectPathForm(bucket, key);
    ObjectPathValid(bucket, key);
    ToValidBytes(ObjectPath(bucket, key));
    ToValidIdempotent(ObjectPath(bucket, key));
    if CanonicalPath(path) == SignedPath(bucket, key) {
      SamePathHasNoEscapes(path);
    }
    if '%' !in path || Unescape(path, false).None? {
      DecodedIsPath(path);
      BucketIsSegmentIff(bucket);
    }
  }

  lemma BucketIsSegmentIff(bucket: string)
    requires IsBytes(bucket)
    ensures if '/' in bucket then |PathEscape(bucket)| < |Encode(bucket)| else PathEscape(bucket) == Encode(bucket)
  {
    ToValidBytes(bucket);
    ToValidHas(bucket, '/');
    EscapeNoSlash(ToValid(bucket));
  }
}
