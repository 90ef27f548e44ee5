/** The query part of a SigV4 canonical request: CanonicalQueryString of internal/auth/canonical.go
    against the query that internal/auth/presign.go signs. */
module CanonicalQuery {
  import opened Basics
  import opened Orders
  import opened UriEncoding
  import opened CanonicalUri

  datatype Pair = Pair(key: string, value: string)

  // ---------------------------------------------------------------- parsing (url.ParseQuery)

  function ParsePart(part: string): Option<Pair> {
    if part == "" || ';' in part then None
    else
      var i := Find(part, '=');
      var k := Unescape(part[..i], true);
      var v := Unescape(if i < |part| then part[i + 1..] else "", true);
      if k.None? || v.None? then None else Some(Pair(k.value, v.value))
  }

  /** The pairs that can be decoded, in order. */
  function ParseParts(parts: seq<string>): seq<Pair> {
    if parts == [] then []
    else
      var p := ParsePart(parts[0]);
      (if p.None? then [] else [p.value]) + ParseParts(parts[1..])
  }

  function ParseQuery(raw: string): seq<Pair> {
    ParseParts(Split(raw, '&'))
  }

  lemma {:induction false} ParsePartsBytes(parts: seq<string>)
    requires AllBytes(parts)
    ensures forall p | p in ParseParts(parts) :: PairBytes(p)
  {
    if parts != [] {
      var part := parts[0];
      var i := Find(part, '=');
      UnescapeBytes(part[..i], true);
      UnescapeBytes(if i < |part| then part[i + 1..] else "", true);
      ParsePartsBytes(parts[1..]);
    }
  }

  lemma ParseQueryBytes(raw: string)
    requires IsBytes(raw)
    ensures forall p | p in ParseQuery(raw) :: PairBytes(p)
  {
    SplitBytes(raw, '&');
    ParsePartsBytes(Split(raw, '&'));
  }

  /** url.Values.Get. */
  function Get(query: seq<Pair>, key: string): string {
    if query == [] then "" else if query[0].key == key then query[0].value else Get(query[1..], key)
  }

  ghost predicate DistinctKeys(ps: seq<Pair>) {
    forall i, j | 0 <= i < j < |ps| :: ps[i].key != ps[j].key
  }

  lemma {:induction false} GetDistinct(ps: seq<Pair>, p: Pair)
    requires DistinctKeys(ps) && p in ps
    ensures Get(ps, p.key) == p.value
  {
    if ps[0] != p {
      var i :| 0 <= i < |ps| && ps[i] == p;
      assert ps[1..][i - 1] == p;
      GetDistinct(ps[1..], p);
    }
  }

  // ---------------------------------------------------------------- encoding

  predicate PairBytes(p: Pair) {
    IsBytes(p.key) && IsBytes(p.value)
  }

  predicate PairValid(p: Pair) {
    PairBytes(p) && ValidUtf8(p.key) && ValidUtf8(p.value)
  }

  ghost predicate AllValid(ps: seq<Pair>) {
    forall i | 0 <= i < |ps| :: PairValid(ps[i])
  }

  function EncodePair(p: Pair): Pair
    requires PairBytes(p)
  {
    Pair(Encode(p.key), Encode(p.value))
  }

  function Text(p: Pair): string {
    p.key + "=" + p.value
  }

  function EncodePairs(ps: seq<Pair>): (r: seq<Pair>)
    requires forall i | 0 <= i < |ps| :: PairBytes(ps[i])
    ensures |r| == |ps| && forall i | 0 <= i < |ps| :: r[i] == EncodePair(ps[i])
  {
    seq(|ps|, i requires 0 <= i < |ps| && PairBytes(ps[i]) => EncodePair(ps[i]))
  }

  function Texts(ps: seq<Pair>): (r: seq<string>)
    ensures |r| == |ps| && forall i | 0 <= i < |ps| :: r[i] == Text(ps[i])
  {
    seq(|ps|, i requires 0 <= i < |ps| => Text(ps[i]))
  }

  lemma EncodedHasNo(s: string, c: char)
    requires IsBytes(s) && !EscapedChar(c, false)
    ensures c !in Encode(s)
  {
    ToValidBytes(s);
    EscapeChars(ToValid(s), false);
  }

  lemma ParsePartFrom(k: string, v: string, key: string, value: string)
    requires '=' !in k && ';' !in k && ';' !in v && Unescape(k, true) == Some(key) && Unescape(v, true) == Some(value)
    ensures ParsePart(k + "=" + v) == Some(Pair(key, value))
  {
    FindFirst(k, '=', v);
    var part := k + ['='] + v;
    assert part[..|k|] == k && part[|k| + 1..] == v;
    assert ';' !in part;
  }

  /** A pair comes back from its encoded text. */
  lemma ParsePartText(p: Pair)
    requires PairValid(p)
    ensures ParsePart(Text(EncodePair(p))) == Some(p) && '&' !in Text(EncodePair(p))
  {
    EncodedHasNo(p.key, '=');
    EncodedHasNo(p.key, ';');
    EncodedHasNo(p.value, ';');
    EncodedHasNo(p.key, '&');
    EncodedHasNo(p.value, '&');
    DecodeEncodeIff(p.key, true);
    DecodeEncodeIff(p.value, true);
    ParsePartFrom(Encode(p.key), Encode(p.value), p.key, p.value);
  }

  lemma {:induction false} ParseTexts(ps: seq<Pair>, parts: seq<string>)
    requires AllValid(ps) && |parts| == |ps| && forall i | 0 <= i < |ps| :: parts[i] == Text(EncodePair(ps[i]))
    ensures ParseParts(parts) == ps
  {
    if ps != [] {
      ParsePartText(ps[0]);
      ParseTexts(ps[1..], parts[1..]);
      assert ps == [ps[0]] + ps[1..];
    }
  }

  /** Parsing an encoded query gives its pairs back, in order. */
  lemma ParseQueryRoundTrip(ps: seq<Pair>)
    requires AllValid(ps) && ps != []
    ensures ParseQuery(Join(Texts(EncodePairs(ps)), "&")) == ps
  {
    var parts := Texts(EncodePairs(ps));
    forall i | 0 <= i < |parts| ensures '&' !in parts[i] {
      ParsePartText(ps[i]);
    }
    SplitJoin(parts, '&');
    ParseTexts(ps, parts);
  }

  // ---------------------------------------------------------------- sorting

  predicate PairLess(a: Pair, b: Pair) {
    if a.key != b.key then Less(a.key, b.key) else Less(a.value, b.value)
  }

  predicate KeyLess(a: Pair, b: Pair) {
    Less(a.key, b.key)
  }

  lemma PairsTotal(s: set<Pair>)
    ensures StrictTotalOn(PairLess, s)
  {
    forall x | x in s ensures !PairLess(x, x) { LessIrreflexive(x.value); }
    forall x, y | x in s && y in s && x != y ensures PairLess(x, y) || PairLess(y, x) {
      if x.key != y.key { LessConnected(x.key, y.key); } else { LessConnected(x.value, y.value); }
    }
    forall x, y, z | x in s && y in s && z in s && PairLess(x, y) && PairLess(y, z) ensures PairLess(x, z) {
      PairLessTransitive(x, y, z);
    }
  }

  lemma PairLessTransitive(x: Pair, y: Pair, z: Pair)
    requires PairLess(x, y) && PairLess(y, z)
    ensures PairLess(x, z)
  {
    if x.key == y.key && y.key == z.key {
      LessTransitive(x.value, y.value, z.value);
    } else if x.key != y.key && y.key != z.key {
      LessTransitive(x.key, y.key, z.key);
      LessIrreflexive(x.key);
    }
  }

  lemma KeysTotal(ps: seq<Pair>)
    requires DistinctKeys(ps)
    ensures StrictTotalOn(KeyLess, Elems(ps))
  {
    var s := Elems(ps);
    forall x | x in s ensures !KeyLess(x, x) { LessIrreflexive(x.key); }
    forall x, y | x in s && y in s && x != y ensures KeyLess(x, y) || KeyLess(y, x) {
      LessConnected(x.key, y.key);
    }
    forall x, y, z | x in s && y in s && z in s && KeyLess(x, y) && KeyLess(y, z) ensures KeyLess(x, z) {
      LessTransitive(x.key, y.key, z.key);
    }
  }

  // ---------------------------------------------------------------- the two sides

  const SIGNATURE_KEY := "X-Amz-Signature"

  function WithoutSignature(ps: seq<Pair>): seq<Pair> {
    if ps == [] then []
    else WithoutSignature(ps[..|ps| - 1]) + if ps[|ps| - 1].key == SIGNATURE_KEY then [] else [ps[|ps| - 1]]
  }

  /** The verifier's query, for pairs in the order the map was ranged over. */
  function CanonicalOf(ranged: seq<Pair>): string
    requires forall i | 0 <= i < |ranged| :: PairBytes(ranged[i])
  {
    KeepsBytes(ranged);
    Join(Texts(SortBy(PairLess, EncodePairs(WithoutSignature(ranged)))), "&")
  }

  lemma {:induction false} KeepsBytes(ps: seq<Pair>)
    requires forall i | 0 <= i < |ps| :: PairBytes(ps[i])
    ensures forall i | 0 <= i < |WithoutSignature(ps)| :: PairBytes(WithoutSignature(ps)[i])
  {
    if ps != [] { KeepsBytes(ps[..|ps| - 1]); }
  }

  /** The signer's query, for parameters in the order the map was ranged over. */
  function SignedOf(params: seq<Pair>): string
    requires forall i | 0 <= i < |params| :: PairBytes(params[i])
  {
    SortedBytes(params);
    Join(Texts(EncodePairs(SortBy(KeyLess, params))), "&")
  }

  lemma SortedBytes(ps: seq<Pair>)
    requires forall i | 0 <= i < |ps| :: PairBytes(ps[i])
    ensures forall i | 0 <= i < |SortBy(KeyLess, ps)| :: PairBytes(SortBy(KeyLess, ps)[i])
  {
    SortElems(KeyLess, ps);
    var s := SortBy(KeyLess, ps);
    forall i | 0 <= i < |s| ensures PairBytes(s[i]) {
      assert s[i] in Elems(s);
    }
  }

  lemma {:induction false} SortElems(less: (Pair, Pair) -> bool, s: seq<Pair>)
    ensures Elems(SortBy(less, s)) == Elems(s)
  {
    if s != [] {
      assert s == [s[0]] + s[1..];
      ElemsCons(s[0], s[1..]);
      SortElems(less, s[1..]);
      InsertElems(less, s[0], SortBy(less, s[1..]));
    }
  }

  /** Sorting on the verifier's side, whatever the order of the map. */
  method CanonicalQueryString(ranged: seq<Pair>) returns (query: string)
    requires forall i | 0 <= i < |ranged| :: PairBytes(ranged[i])
    ensures query == CanonicalOf(ranged)
  {
    KeepsBytes(ranged);
    var pairs: seq<Pair> := [];
    for i := 0 to |ranged|
      invariant forall j | 0 <= j < |WithoutSignature(ranged[..i])| :: PairBytes(WithoutSignature(ranged[..i])[j])
      invariant pairs == EncodePairs(WithoutSignature(ranged[..i]))
    {
      var before, now := WithoutSignature(ranged[..i]), WithoutSignature(ranged[..i + 1]);
      assert ranged[..i + 1][..i] == ranged[..i];
      if ranged[i].key == SIGNATURE_KEY {
        continue;
      }
      assert now == before + [ranged[i]];
      assert now[..|now| - 1] == before;
      var k := UriEncodeStrict(ranged[i].key);
      var v := UriEncodeStrict(ranged[i].value);
      pairs := pairs + [Pair(k, v)];
    }
    assert ranged[..|ranged|] == ranged;
    var sorted := SortBy(PairLess, pairs);
    if |sorted| == 0 {
      return "";
    }
    var parts := TextParts(sorted);
    query := Join(parts, "&");
  }

  method TextParts(ps: seq<Pair>) returns (parts: seq<string>)
    ensures parts == Texts(ps)
  {
    parts := [];
    for i := 0 to |ps|
      invariant |parts| == i && forall j | 0 <= j < i :: parts[j] == Text(ps[j])
    {
      parts := parts + [ps[i].key + "=" + ps[i].value];
    }
  }

  /** Sorting on the signer's side. */
  method SignQuery(params: seq<Pair>) returns (query: string)
    requires forall i | 0 <= i < |params| :: PairBytes(params[i])
    ensures query == SignedOf(params)
  {
    SortedBytes(params);
    var sorted := SortBy(KeyLess, params);
    var pairs := EncodedParts(sorted);
    var parts := TextParts(pairs);
    query := Join(parts, "&");
  }

  method EncodedParts(ps: seq<Pair>) returns (r: seq<Pair>)
    requires forall i | 0 <= i < |ps| :: PairBytes(ps[i])
    ensures r == EncodePairs(ps)
  {
    r := [];
    for i := 0 to |ps|
      invariant |r| == i && forall j | 0 <= j < i :: r[j] == EncodePair(ps[j])
    {
      var k := UriEncodeStrict(ps[i].key);
      var v := UriEncodeStrict(ps[i].value);
      r := r + [Pair(k, v)];
    }
  }

  // ---------------------------------------------------------------- the two sides agree

  predicate AllUnreserved(s: string) {
    forall i | 0 <= i < |s| :: Unreserved(s[i])
  }

  lemma EncodeUnreserved(s: string)
    requires AllUnreserved(s)
    ensures Ascii(s) && IsBytes(s) && Encode(s) == s && ValidUtf8(s)
  {
    AsciiValid(s);
    ToValidIff(s);
    EscapeUnreserved(s);
  }

  lemma {:induction false} EscapeUnreserved(s: string)
    requires AllUnreserved(s) && IsBytes(s)
    ensures Escape(s, false) == s
  {
    if s != "" {
      EscapeUnreserved(s[1..]);
      assert s == [s[0]] + s[1..];
    }
  }

  ghost predicate PlainKeys(ps: seq<Pair>) {
    forall i | 0 <= i < |ps| :: PairValid(ps[i]) && Encode(ps[i].key) == ps[i].key
  }

  ghost function EncodedSet(s: set<Pair>): set<Pair> {
    set p | p in s && PairBytes(p) :: EncodePair(p)
  }

  lemma EncodeElems(ps: seq<Pair>)
    requires PlainKeys(ps)
    ensures Elems(EncodePairs(ps)) == EncodedSet(Elems(ps))
  {
    var e := EncodePairs(ps);
    forall x ensures x in Elems(e) <==> x in EncodedSet(Elems(ps)) {
      if x in Elems(e) {
        var i :| 0 <= i < |e| && e[i] == x;
        assert ps[i] in Elems(ps);
      }
      if x in EncodedSet(Elems(ps)) {
        var p :| p in Elems(ps) && PairBytes(p) && x == EncodePair(p);
        var i :| 0 <= i < |ps| && ps[i] == p;
        assert e[i] == x;
      }
    }
  }

  lemma {:induction false} WithoutSignatureElems(ps: seq<Pair>)
    ensures forall p :: p in WithoutSignature(ps) <==> p in ps && p.key != SIGNATURE_KEY
    ensures DistinctKeys(ps) ==> DistinctKeys(WithoutSignature(ps))
  {
    if ps != [] {
      var init, last := ps[..|ps| - 1], ps[|ps| - 1];
      assert ps == init + [last];
      WithoutSignatureElems(init);
      if DistinctKeys(ps) {
        var kept := WithoutSignature(init);
        forall i | 0 <= i < |kept| ensures kept[i].key != last.key {
          assert kept[i] in kept;
        }
      }
    }
  }

  lemma EncodedAscending(sorted: seq<Pair>)
    requires PlainKeys(sorted) && Ascending(KeyLess, sorted)
    ensures Ascending(PairLess, EncodePairs(sorted))
  {
    var e := EncodePairs(sorted);
    forall i, j | 0 <= i < j < |e| ensures PairLess(e[i], e[j]) {
      assert KeyLess(sorted[i], sorted[j]);
      LessIrreflexive(e[i].key);
    }
  }

  lemma EncodedDistinct(ps: seq<Pair>)
    requires PlainKeys(ps) && DistinctKeys(ps)
    ensures NoDuplicates(EncodePairs(ps))
  {
    var e := EncodePairs(ps);
    forall i, j | 0 <= i < j < |e| ensures e[i] != e[j] {
      assert ps[i].key != ps[j].key;
    }
  }

  lemma SamePairsPlain(ps: seq<Pair>, qs: seq<Pair>)
    requires PlainKeys(ps) && Elems(qs) <= Elems(ps)
    ensures PlainKeys(qs)
  {
    forall i | 0 <= i < |qs| ensures PairValid(qs[i]) && Encode(qs[i].key) == qs[i].key {
      assert qs[i] in Elems(qs);
      assert qs[i] in Elems(ps);
      var j :| 0 <= j < |ps| && ps[j] == qs[i];
    }
  }

  /** The signer's sorted pairs are the verifier's. */
  lemma SortedAlike(params: seq<Pair>, kept: seq<Pair>)
    requires PlainKeys(params) && DistinctKeys(params) && DistinctKeys(kept) && Elems(kept) == Elems(params)
    ensures PlainKeys(kept) && PlainKeys(SortBy(KeyLess, params))
    ensures EncodePairs(SortBy(KeyLess, params)) == SortBy(PairLess, EncodePairs(kept))
  {
    SamePairsPlain(params, kept);
    SortElems(KeyLess, params);
    var sorted := SortBy(KeyLess, params);
    SamePairsPlain(params, sorted);
    KeysTotal(params);
    SortByAscending(KeyLess, params);
    EncodedAscending(sorted);
    EncodeElems(sorted);
    EncodeElems(kept);
    var e := EncodePairs(kept);
    EncodedDistinct(kept);
    PairsTotal(Elems(e));
    SortByAscending(PairLess, e);
    AscendingUnique(PairLess, EncodePairs(sorted), SortBy(PairLess, e));
  }

  lemma KeptElems(params: seq<Pair>, ranged: seq<Pair>, sig: string)
    requires forall i | 0 <= i < |params| :: params[i].key != SIGNATURE_KEY
    requires Elems(ranged) == Elems(params) + {Pair(SIGNATURE_KEY, sig)}
    ensures Elems(WithoutSignature(ranged)) == Elems(params)
  {
    WithoutSignatureElems(ranged);
    forall p ensures p in Elems(WithoutSignature(ranged)) <==> p in Elems(params) {
      assert p in ranged <==> p in Elems(ranged);
      assert p in params <==> p in Elems(params);
    }
  }

  /** Whatever order either side ranges over its map in, the verifier rebuilds the signed query. */
  lemma QueryOrderIrrelevant(params: seq<Pair>, ranged: seq<Pair>, sig: string)
    requires PlainKeys(params) && DistinctKeys(params) && DistinctKeys(ranged)
    requires forall i | 0 <= i < |params| :: params[i].key != SIGNATURE_KEY
    requires forall i | 0 <= i < |ranged| :: PairBytes(ranged[i])
    requires Elems(ranged) == Elems(params) + {Pair(SIGNATURE_KEY, sig)}
    ensures CanonicalOf(ranged) == SignedOf(params)
  {
    WithoutSignatureElems(ranged);
    KeptElems(params, ranged, sig);
    SortedAlike(params, WithoutSignature(ranged));
  }
}
