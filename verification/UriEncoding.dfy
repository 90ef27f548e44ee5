/** UTF-8 and percent-encoding as internal/auth/encode.go and Go's net/url use them.
    A string is a sequence of bytes: characters below 256. */
module UriEncoding {
  import opened Basics

  predicate IsBytes(s: string) {
    forall i | 0 <= i < |s| :: s[i] as int < 256
  }

  // ---------------------------------------------------------------- UTF-8 (section 3 of RFC 3629)

  predicate Continuation(c: char) {
    0x80 <= c as int <= 0xBF
  }

  /** The second byte after leading byte `b`: no overlong forms, no surrogates, nothing past U+10FFFF. */
  predicate SecondByte(b: int, c: char) {
    var low := if b == 0xE0 then 0xA0 else if b == 0xF0 then 0x90 else 0x80;
    var high := if b == 0xED then 0x9F else if b == 0xF4 then 0x8F else 0xBF;
    low <= c as int <= high
  }

  /** The length of the well-formed sequence `s` starts with, or 0. */
  function Width(s: string): (w: nat)
    requires s != ""
    ensures w <= |s|
  {
    var b := s[0] as int;
    if b < 0x80 then 1
    else if 0xC2 <= b <= 0xDF && |s| >= 2 && Continuation(s[1]) then 2
    else if 0xE0 <= b <= 0xEF && |s| >= 3 && SecondByte(b, s[1]) && Continuation(s[2]) then 3
    else if 0xF0 <= b <= 0xF4 && |s| >= 4 && SecondByte(b, s[1]) && Continuation(s[2]) && Continuation(s[3]) then 4
    else 0
  }

  const RUNE_ERROR := 0xFFFD

  /** The rune a range loop yields next, and how many bytes it took. */
  function DecodeRune(s: string): (r: (int, nat))
    requires s != ""
    ensures 1 <= r.1 <= |s|
  {
    var b := s[0] as int;
    match Width(s)
    case 0 => (RUNE_ERROR, 1)
    case 1 => (b, 1)
    case 2 => ((b - 0xC0) * 64 + (s[1] as int - 0x80), 2)
    case 3 => ((b - 0xE0) * 4096 + (s[1] as int - 0x80) * 64 + (s[2] as int - 0x80), 3)
    case _ => ((b - 0xF0) * 262144 + (s[1] as int - 0x80) * 4096 + (s[2] as int - 0x80) * 64 + (s[3] as int - 0x80), 4)
  }

  function Byte(x: int): char
    requires 0 <= x < 256
  {
    x as char
  }

  const REPLACEMENT: string := [Byte(0xEF), Byte(0xBF), Byte(0xBD)]

  function EncodeRune(r: int): string {
    if r < 0 || r > 0x10FFFF || 0xD800 <= r <= 0xDFFF then REPLACEMENT
    else if r < 0x80 then [Byte(r)]
    else if r < 0x800 then [Byte(0xC0 + r / 64), Byte(0x80 + r % 64)]
    else if r < 0x10000 then [Byte(0xE0 + r / 4096), Byte(0x80 + r / 64 % 64), Byte(0x80 + r % 64)]
    else [Byte(0xF0 + r / 262144), Byte(0x80 + r / 4096 % 64), Byte(0x80 + r / 64 % 64), Byte(0x80 + r % 64)]
  }

  lemma Digits2(a: int, b: int)
    requires 0 <= b < 64
    ensures (a * 64 + b) / 64 == a && (a * 64 + b) % 64 == b
  {
  }

  lemma Digits3(a: int, b: int, c: int)
    requires 0 <= b < 64 && 0 <= c < 64
    ensures var r := a * 4096 + b * 64 + c;
            r / 4096 == a && r / 64 % 64 == b && r % 64 == c
  {
    var r := a * 4096 + b * 64 + c;
    Digits2(a * 64 + b, c);
    assert r == (a * 64 + b) * 64 + c;
    Digits2(a, b);
  }

  lemma Digits4(a: int, b: int, c: int, d: int)
    requires 0 <= b < 64 && 0 <= c < 64 && 0 <= d < 64
    ensures var r := a * 262144 + b * 4096 + c * 64 + d;
            r / 262144 == a && r / 4096 % 64 == b && r / 64 % 64 == c && r % 64 == d
  {
    var r := a * 262144 + b * 4096 + c * 64 + d;
    var h := a * 4096 + b * 64 + c;
    assert r == h * 64 + d;
    Digits2(h, d);
    Digits3(a, b, c);
    assert r / 64 == h && r / 262144 == h / 4096 && r / 4096 == h / 64;
  }

  lemma EncodeDecode3(s: string)
    requires s != "" && Width(s) == 3
    ensures EncodeRune(DecodeRune(s).0) == s[..3]
  {
    var a, b, c := s[0] as int - 0xE0, s[1] as int - 0x80, s[2] as int - 0x80;
    Digits3(a, b, c);
    assert s[..3] == [s[0], s[1], s[2]];
    var r := DecodeRune(s).0;
    assert r == a * 4096 + b * 64 + c;
    assert 0x800 <= r < 0x10000 && !(0xD800 <= r <= 0xDFFF);
  }

  lemma EncodeDecode4(s: string)
    requires s != "" && Width(s) == 4
    ensures EncodeRune(DecodeRune(s).0) == s[..4]
  {
    var a, b, c, d := s[0] as int - 0xF0, s[1] as int - 0x80, s[2] as int - 0x80, s[3] as int - 0x80;
    Digits4(a, b, c, d);
    assert s[..4] == [s[0], s[1], s[2], s[3]];
    var r := DecodeRune(s).0;
    assert r == a * 262144 + b * 4096 + c * 64 + d;
    assert 0x10000 <= r <= 0x10FFFF;
  }

  /** Re-encoding a rune gives its bytes back, or the replacement character for a byte that is not
      part of any well-formed sequence. */
  lemma EncodeDecodeRune(s: string)
    requires s != ""
    ensures EncodeRune(DecodeRune(s).0) == Head(s)
  {
    if Width(s) == 1 {
      assert s[..1] == [s[0]];
    } else if Width(s) == 2 {
      Digits2(s[0] as int - 0xC0, s[1] as int - 0x80);
      assert s[..2] == [s[0], s[1]];
    } else if Width(s) == 3 {
      EncodeDecode3(s);
    } else if Width(s) == 4 {
      EncodeDecode4(s);
    }
  }

  /** The bytes of the first rune, or the replacement character. */
  function Head(s: string): string
    requires s != ""
  {
    if Width(s) == 0 then REPLACEMENT else s[..Width(s)]
  }

  predicate ValidUtf8(s: string) {
    s == "" || (Width(s) > 0 && ValidUtf8(s[Width(s)..]))
  }

  /** The string with every ill-formed byte replaced. */
  function ToValid(s: string): string {
    if s == "" then "" else Head(s) + ToValid(s[DecodeRune(s).1..])
  }

  lemma {:induction false} ToValidLonger(s: string)
    ensures |ToValid(s)| >= |s|
  {
    if s != "" { ToValidLonger(s[DecodeRune(s).1..]); }
  }

  lemma ToValidUnfold(s: string, w: nat, rest: string)
    requires s != "" && w == DecodeRune(s).1 && rest == s[w..]
    ensures ToValid(s) == Head(s) + ToValid(rest)
  {
  }

  lemma CancelPrefix(a: string, x: string, y: string)
    ensures a + x == a + y <==> x == y
  {
    assert (a + x)[|a|..] == x && (a + y)[|a|..] == y;
  }

  lemma ReplacedIsLonger(s: string)
    requires s != "" && Width(s) == 0
    ensures |ToValid(s)| > |s|
  {
    ToValidUnfold(s, 1, s[1..]);
    ToValidLonger(s[1..]);
  }

  lemma KeptUnchangedIff(s: string, w: nat)
    requires s != "" && w == Width(s) > 0
    ensures ToValid(s) == s <==> ToValid(s[w..]) == s[w..]
  {
    ToValidUnfold(s, w, s[w..]);
    CancelPrefix(s[..w], ToValid(s[w..]), s[w..]);
    assert s == s[..w] + s[w..];
  }

  lemma {:induction false} ToValidIff(s: string)
    ensures ToValid(s) == s <==> ValidUtf8(s)
  {
    if s != "" {
      if Width(s) == 0 {
        ReplacedIsLonger(s);
      } else {
        KeptUnchangedIff(s, Width(s));
        ToValidIff(s[Width(s)..]);
      }
    }
  }

  predicate Ascii(s: string) {
    forall i | 0 <= i < |s| :: s[i] as int < 0x80
  }

  lemma {:induction false} AsciiValid(s: string)
    requires Ascii(s)
    ensures ToValid(s) == s
  {
    if s != "" {
      AsciiValid(s[1..]);
      assert s == s[..1] + s[1..];
    }
  }

  lemma HeadStable(a: string, c: char, b: string)
    requires a != "" && c as int < 0x80
    ensures Head(a + [c] + b) == Head(a) && DecodeRune(a + [c] + b).1 == DecodeRune(a).1
  {
    var s := a + [c] + b;
    assert forall i | 0 <= i < |a| :: s[i] == a[i];
    assert s[|a|] == c;
    assert Width(s) == Width(a);
    assert s[..Width(a)] == a[..Width(a)];
  }

  lemma ToValidHead(c: char, b: string)
    requires c as int < 0x80
    ensures ToValid([c] + b) == [c] + ToValid(b)
  {
    var s := [c] + b;
    assert s[..1] == [c] && s[1..] == b;
  }

  lemma SliceAround(a: string, c: char, b: string, w: nat)
    requires w <= |a|
    ensures (a + [c] + b)[w..] == a[w..] + [c] + b
  {
  }

  lemma AroundStep(a: string, c: char, b: string, w: nat, x: string, y: string)
    requires a != "" && c as int < 0x80 && w == DecodeRune(a).1
    requires ToValid(a[w..] + [c] + b) == x + [c] + y
    ensures ToValid(a + [c] + b) == (Head(a) + x) + [c] + y
  {
    HeadStable(a, c, b);
    SliceAround(a, c, b, w);
    ToValidUnfold(a + [c] + b, w, a[w..] + [c] + b);
    assert Head(a) + (x + [c] + y) == (Head(a) + x) + [c] + y;
  }

  /** An ASCII character always stands by itself. */
  lemma {:induction false} ToValidAround(a: string, c: char, b: string)
    requires c as int < 0x80
    ensures ToValid(a + [c] + b) == ToValid(a) + [c] + ToValid(b)
  {
    if a == "" {
      assert a + [c] + b == [c] + b;
      ToValidHead(c, b);
    } else {
      var w := DecodeRune(a).1;
      ToValidAround(a[w..], c, b);
      AroundStep(a, c, b, w, ToValid(a[w..]), ToValid(b));
      ToValidUnfold(a, w, a[w..]);
    }
  }

  // ---------------------------------------------------------------- percent-encoding (section 2.1 of RFC 3986)

  /** Section 2.3 of RFC 3986. */
  predicate Unreserved(c: char) {
    'A' <= c <= 'Z' || 'a' <= c <= 'z' || '0' <= c <= '9' || c == '-' || c == '_' || c == '.' || c == '~'
  }

  function HexDigit(x: int): char
    requires 0 <= x < 16
  {
    "0123456789ABCDEF"[x]
  }

  function HexValue(c: char): Option<int> {
    if '0' <= c <= '9' then Some(c as int - '0' as int)
    else if 'a' <= c <= 'f' then Some(c as int - 'a' as int + 10)
    else if 'A' <= c <= 'F' then Some(c as int - 'A' as int + 10)
    else None
  }

  function HexUpper(b: int): string
    requires 0 <= b < 256
  {
    [HexDigit(b / 16), HexDigit(b % 16)]
  }

  function EscapeByte(c: char, slash: bool): string
    requires c as int < 256
  {
    if Unreserved(c) || (slash && c == '/') then [c] else "%" + HexUpper(c as int)
  }

  /** Byte by byte; with `slash`, slashes stay as they are. */
  function Escape(s: string, slash: bool): string
    requires IsBytes(s)
  {
    if s == "" then "" else EscapeByte(s[0], slash) + Escape(s[1..], slash)
  }

  lemma {:induction false} EscapeConcat(a: string, b: string, slash: bool)
    requires IsBytes(a) && IsBytes(b)
    ensures Escape(a + b, slash) == Escape(a, slash) + Escape(b, slash)
  {
    if a == "" {
      assert a + b == b;
    } else {
      assert (a + b)[1..] == a[1..] + b;
      EscapeConcat(a[1..], b, slash);
    }
  }

  predicate EscapedChar(c: char, slash: bool) {
    Unreserved(c) || c == '%' || (slash && c == '/')
  }

  lemma {:induction false} EscapeChars(s: string, slash: bool)
    requires IsBytes(s)
    ensures forall c | c in Escape(s, slash) :: EscapedChar(c, slash)
  {
    if s != "" {
      EscapeChars(s[1..], slash);
    }
  }

  /** url.PathUnescape, or with `plus` url.QueryUnescape; none for a malformed escape. */
  function Unescape(s: string, plus: bool): Option<string> {
    if s == "" then Some("")
    else if s[0] != '%' then
      var rest := Unescape(s[1..], plus);
      if rest.None? then None else Some([if plus && s[0] == '+' then ' ' else s[0]] + rest.value)
    else if |s| < 3 || HexValue(s[1]).None? || HexValue(s[2]).None? then None
    else
      var rest := Unescape(s[3..], plus);
      if rest.None? then None else Some([Byte(HexValue(s[1]).value * 16 + HexValue(s[2]).value)] + rest.value)
  }

  lemma HexRoundTrip(b: int)
    requires 0 <= b < 256
    ensures HexValue(HexDigit(b / 16)) == Some(b / 16) && HexValue(HexDigit(b % 16)) == Some(b % 16)
  {
  }

  lemma UnescapeKept(c: char, plus: bool, tail: string, rest: string)
    requires c != '%' && c != '+' && Unescape(tail, plus) == Some(rest)
    ensures Unescape([c] + tail, plus) == Some([c] + rest)
  {
    assert ([c] + tail)[1..] == tail;
  }

  lemma UnescapeHex(b: int, plus: bool, tail: string, rest: string)
    requires 0 <= b < 256 && Unescape(tail, plus) == Some(rest)
    ensures Unescape("%" + HexUpper(b) + tail, plus) == Some([Byte(b)] + rest)
  {
    HexRoundTrip(b);
    assert ("%" + HexUpper(b) + tail)[3..] == tail;
  }

  lemma UnescapeByte(c: char, slash: bool, plus: bool, tail: string, rest: string)
    requires c as int < 256 && Unescape(tail, plus) == Some(rest)
    ensures Unescape(EscapeByte(c, slash) + tail, plus) == Some([c] + rest)
  {
    if Unreserved(c) || (slash && c == '/') {
      UnescapeKept(c, plus, tail, rest);
    } else {
      UnescapeHex(c as int, plus, tail, rest);
    }
  }

  /** Decoding undoes encoding, in a path and in a query. */
  lemma {:induction false} UnescapeEscape(s: string, slash: bool, plus: bool)
    requires IsBytes(s)
    ensures Unescape(Escape(s, slash), plus) == Some(s)
  {
    if s != "" {
      UnescapeEscape(s[1..], slash, plus);
      UnescapeByte(s[0], slash, plus, Escape(s[1..], slash), s[1..]);
      assert s == [s[0]] + s[1..];
    }
  }

  lemma {:induction false} UnescapePlain(s: string)
    requires '%' !in s
    ensures Unescape(s, false) == Some(s)
  {
    if s != "" {
      assert s[0] in s;
      UnescapePlain(s[1..]);
      assert s == [s[0]] + s[1..];
    }
  }

  lemma {:induction false} ToValidBytes(s: string)
    requires IsBytes(s)
    ensures IsBytes(ToValid(s))
  {
    if s != "" { ToValidBytes(s[DecodeRune(s).1..]); }
  }

  // ---------------------------------------------------------------- the encoder

  function Encode(s: string): string
    requires IsBytes(s)
  {
    ToValidBytes(s);
    Escape(ToValid(s), false)
  }

  /** What is encoded rune by rune decodes to the same string, exactly when the string is UTF-8. */
  lemma DecodeEncodeIff(s: string, plus: bool)
    requires IsBytes(s)
    ensures Unescape(Encode(s), plus) == Some(ToValid(s))
    ensures Unescape(Encode(s), plus) == Some(s) <==> ValidUtf8(s)
  {
    ToValidBytes(s);
    UnescapeEscape(ToValid(s), false, plus);
    ToValidIff(s);
  }

  predicate NoneUnreserved(s: string) {
    forall i | 0 <= i < |s| :: !Unreserved(s[i])
  }

  /** Bytes written as escapes one after the other. */
  method EscapeBytes(buf: string) returns (r: string)
    requires IsBytes(buf) && NoneUnreserved(buf)
    ensures r == Escape(buf, false)
  {
    r := "";
    for i := 0 to |buf|
      invariant r == Escape(buf[..i], false)
    {
      EscapeConcat(buf[..i], [buf[i]], false);
      assert buf[..i + 1] == buf[..i] + [buf[i]];
      r := r + "%" + HexUpper(buf[i] as int);
    }
    assert buf[..|buf|] == buf;
  }

  /** A rune that is not an unreserved character is made of bytes that are not. */
  lemma HeadBytes(s: string)
    requires s != "" && IsBytes(s)
    ensures IsBytes(Head(s))
    ensures var c := DecodeRune(s).0;
            if 0 <= c < 0x80 && Unreserved(c as char) then Head(s) == [c as char] else NoneUnreserved(Head(s))
  {
    if Width(s) == 1 {
      assert s[..1] == [s[0]];
    } else if Width(s) > 1 {
      assert forall i | 0 <= i < Width(s) :: s[i] as int >= 0x80;
      EncodeDecodeRune(s);
    }
  }

  /** The escapes of the first rune of a string. */
  method EncodeFirst(left: string) returns (r: string, n: nat)
    requires left != "" && IsBytes(left)
    ensures 1 <= n <= |left| && Encode(left) == r + Encode(left[n..])
  {
    var (c, w) := DecodeRune(left);
    n := w;
    HeadBytes(left);
    EncodeDecodeRune(left);
    ToValidBytes(left[n..]);
    EscapeConcat(Head(left), ToValid(left[n..]), false);
    ToValidUnfold(left, n, left[n..]);
    if 0 <= c < 0x80 && Unreserved(c as char) {
      r := [c as char];
    } else {
      r := EscapeBytes(EncodeRune(c));
    }
  }

  /** `r` is the encoding of the first `i` bytes of `value`, which end between runes. */
  ghost predicate EncodedUpTo(value: string, i: nat, r: string)
    requires IsBytes(value)
  {
    i <= |value| && Encode(value) == r + Encode(value[i..])
  }

  lemma EncodedStart(value: string)
    requires IsBytes(value)
    ensures EncodedUpTo(value, 0, "")
  {
    assert value[0..] == value;
    assert "" + Encode(value) == Encode(value);
  }

  lemma EncodedNext(value: string, i: nat, r: string, e: string, n: nat)
    requires IsBytes(value) && EncodedUpTo(value, i, r) && n <= |value[i..]|
    requires Encode(value[i..]) == e + Encode(value[i..][n..])
    ensures EncodedUpTo(value, i + n, r + e)
  {
    assert value[i..][n..] == value[i + n..];
    Append(r, e, Encode(value[i + n..]));
  }

  lemma EncodedEnd(value: string, r: string)
    requires IsBytes(value) && EncodedUpTo(value, |value|, r)
    ensures r == Encode(value)
  {
    EncodeEmpty(value[|value|..]);
    assert r + "" == r;
  }

  /** The loop over the runes of a string. */
  method UriEncodeStrict(value: string) returns (r: string)
    requires IsBytes(value)
    ensures r == Encode(value)
  {
    r := "";
    var i := 0;
    EncodedStart(value);
    while i < |value|
      invariant EncodedUpTo(value, i, r)
    {
      r, i := EncodeNext(value, i, r);
    }
    EncodedEnd(value, r);
  }

  /** One rune of the loop. */
  method EncodeNext(value: string, i: nat, r: string) returns (r': string, i': nat)
    requires IsBytes(value) && EncodedUpTo(value, i, r) && i < |value|
    ensures i < i' && EncodedUpTo(value, i', r')
  {
    var e, n := EncodeFirst(value[i..]);
    EncodedNext(value, i, r, e, n);
    r', i' := r + e, i + n;
  }

  lemma Append(a: string, b: string, c: string)
    ensures a + (b + c) == (a + b) + c
  {
  }

  lemma EncodeEmpty(s: string)
    requires s == ""
    ensures Encode(s) == ""
  {
  }

  // ---------------------------------------------------------------- what the encoding looks like

  /** The characters that stand for themselves, written out. */
  predicate ListedUnreserved(c: char) {
    || c in "ABCDEFGHIJKLMNOPQRSTUVWXYZ"
    || c in "abcdefghijklmnopqrstuvwxyz"
    || c in "0123456789"
    || c in "-_.~"
  }

  lemma UpperLetters(c: char)
    ensures 'A' <= c <= 'Z' <==> c in "ABCDEFGHIJKLMNOPQRSTUVWXYZ"
  {
    assert 'A' <= c <= 'Z' ==> "ABCDEFGHIJKLMNOPQRSTUVWXYZ"[c as int - 'A' as int] == c;
  }

  lemma LowerLetters(c: char)
    ensures 'a' <= c <= 'z' <==> c in "abcdefghijklmnopqrstuvwxyz"
  {
    assert 'a' <= c <= 'z' ==> "abcdefghijklmnopqrstuvwxyz"[c as int - 'a' as int] == c;
  }

  lemma Numerals(c: char)
    ensures '0' <= c <= '9' <==> c in "0123456789"
  {
    assert '0' <= c <= '9' ==> "0123456789"[c as int - '0' as int] == c;
  }

  lemma UnreservedIff(c: char)
    ensures Unreserved(c) <==> ListedUnreserved(c)
  {
    UpperLetters(c);
    LowerLetters(c);
    Numerals(c);
  }

  /** The digit of `x` in upper-case hexadecimal. */
  predicate UpperHexOf(h: char, x: int) {
    if x < 10 then h as int == '0' as int + x else h as int == 'A' as int + (x - 10)
  }

  /** A byte of the list stands for itself; every other byte is a percent sign and its value as two
      upper-case hexadecimal digits. */
  lemma EscapedByteForm(c: char)
    requires c as int < 256
    ensures var e, x := EscapeByte(c, false), c as int;
            if ListedUnreserved(c) then e == [c]
            else |e| == 3 && e[0] == '%' && UpperHexOf(e[1], x / 16) && UpperHexOf(e[2], x % 16)
  {
    UnreservedIff(c);
    HexDigitForm(c as int / 16);
    HexDigitForm(c as int % 16);
  }

  lemma HexDigitForm(x: int)
    requires 0 <= x < 16
    ensures UpperHexOf(HexDigit(x), x)
  {
  }

  predicate UpperHex(c: char) {
    '0' <= c <= '9' || 'A' <= c <= 'F'
  }

  /** In an encoded string every percent sign is followed by two upper-case hexadecimal digits. */
  lemma {:induction false} EscapesAreUpper(s: string, slash: bool, i: nat)
    requires IsBytes(s) && i < |Escape(s, slash)| && Escape(s, slash)[i] == '%'
    ensures i + 2 < |Escape(s, slash)| && UpperHex(Escape(s, slash)[i + 1]) && UpperHex(Escape(s, slash)[i + 2])
  {
    var first, rest := EscapeByte(s[0], slash), Escape(s[1..], slash);
    FirstEscape(s[0], slash);
    if i >= |first| {
      assert rest[i - |first|] == '%';
      EscapesAreUpper(s[1..], slash, i - |first|);
    }
  }

  lemma FirstEscape(c: char, slash: bool)
    requires c as int < 256
    ensures var e := EscapeByte(c, slash);
            if e[0] == '%' then |e| == 3 && UpperHex(e[1]) && UpperHex(e[2]) else |e| == 1
  {
    HexDigitForm(c as int / 16);
    HexDigitForm(c as int % 16);
  }

  /** The same of the encoder's output; for instance a slash becomes %2F. */
  lemma EncodedEscapesAreUpper(s: string, i: nat)
    requires IsBytes(s) && i < |Encode(s)| && Encode(s)[i] == '%'
    ensures i + 2 < |Encode(s)| && UpperHex(Encode(s)[i + 1]) && UpperHex(Encode(s)[i + 2])
  {
    ToValidBytes(s);
    EscapesAreUpper(ToValid(s), false, i);
  }

  lemma SlashEncoded(s: string)
    requires s == ['/']
    ensures IsBytes(s) && Encode(s) == ['%', '2', 'F']
  {
    AsciiValid(s);
    assert s[1..] == "" && Escape("", false) == "";
    assert '/' as int / 16 == 2 && '/' as int % 16 == 15;
    assert HexDigit(2) == '2' && HexDigit(15) == 'F';
    assert Escape(s, false) == EscapeByte('/', false) + Escape(s[1..], false);
  }

  // ---------------------------------------------------------------- every character is well-formed

  predicate Scalar(r: int) {
    0 <= r <= 0x10FFFF && !(0xD800 <= r <= 0xDFFF)
  }

  lemma DecodeTwoBytes(r: int, rest: string)
    requires 0x80 <= r < 0x800
    ensures DecodeRune(EncodeRune(r) + rest) == (r, 2) && Width(EncodeRune(r) + rest) == 2
  {
  }

  lemma DecodeThreeBytes(r: int, rest: string)
    requires 0x800 <= r < 0x10000 && Scalar(r)
    ensures DecodeRune(EncodeRune(r) + rest) == (r, 3) && Width(EncodeRune(r) + rest) == 3
  {
    var a, b, c := r / 4096, r / 64 % 64, r % 64;
    assert r == a * 4096 + b * 64 + c;
  }

  lemma FourDigits(r: int)
    requires 0x10000 <= r <= 0x10FFFF
    ensures var a, b, c, d := r / 262144, r / 4096 % 64, r / 64 % 64, r % 64;
            && r == a * 262144 + b * 4096 + c * 64 + d && 0 <= a <= 4
            && (a == 0 ==> b >= 0x10) && (a == 4 ==> b <= 0x0F)
  {
  }

  lemma FourBytesWidth(s: string, a: int, b: int, c: int, d: int)
    requires 0 <= a <= 4 && 0 <= b < 64 && 0 <= c < 64 && 0 <= d < 64 && (a == 0 ==> b >= 0x10) && (a == 4 ==> b <= 0x0F)
    requires |s| >= 4 && s[0] == Byte(0xF0 + a) && s[1] == Byte(0x80 + b) && s[2] == Byte(0x80 + c) && s[3] == Byte(0x80 + d)
    ensures Width(s) == 4 && DecodeRune(s) == (a * 262144 + b * 4096 + c * 64 + d, 4)
  {
  }

  lemma DecodeFourBytes(r: int, rest: string)
    requires 0x10000 <= r <= 0x10FFFF
    ensures DecodeRune(EncodeRune(r) + rest) == (r, 4) && Width(EncodeRune(r) + rest) == 4
  {
    FourDigits(r);
    FourBytesWidth(EncodeRune(r) + rest, r / 262144, r / 4096 % 64, r / 64 % 64, r % 64);
  }

  /** Every Unicode scalar value is decoded from its own encoding (section 3 of RFC 3629). */
  lemma DecodeEncodeRune(r: int, rest: string)
    requires Scalar(r)
    ensures var s := EncodeRune(r) + rest;
            s != "" && DecodeRune(s) == (r, |EncodeRune(r)|) && Width(s) == |EncodeRune(r)|
  {
    if 0x80 <= r < 0x800 {
      DecodeTwoBytes(r, rest);
    } else if 0x800 <= r < 0x10000 {
      DecodeThreeBytes(r, rest);
    } else if r >= 0x10000 {
      DecodeFourBytes(r, rest);
    }
  }
}
